/** Properties of the semantic pass: what one instruction's check does, and what a
    whole function's walk does to RAM, to the seen-table and to the error flag. */
module ResolverFacts {
  import opened Isa
  import opened Code
  import opened Resolver

  /** The instruction at a is a MOV or REF whose destination names a raw stack slot. */
  predicate DestNamed(R: seq<byte>, a: int)
  {
    0 <= a && a + 4 < |R| && (R[a] == MOV || R[a] == REF) && IsStackMode(R[a + 1])
  }

  /** The instruction at a is a MOV or REF whose source names a raw stack slot. */
  predicate SourceNamed(R: seq<byte>, a: int)
  {
    0 <= a && a + 4 < |R| && (R[a] == MOV || R[a] == REF) && NamedSource(R[a], R[a + 3])
  }

  /** Some instruction at `addrs` has a destination naming raw slot x. */
  predicate NamedIn(R: seq<byte>, addrs: seq<nat>, x: int)
  {
    exists j :: 0 <= j < |addrs| && DestNamed(R, addrs[j]) && R[addrs[j] + 2] == x
  }

  /** Every byte of the instruction at a, other than a MOV's or REF's value bytes,
      is the same in T as in R. */
  predicate KeptAt(R: seq<byte>, T: seq<byte>, a: int)
    requires |R| == |T| && 0 <= a < |R|
  {
    forall c :: a <= c < a + Length(R[a]) && c < |R| && !Rewritable(R, a, c) ==> T[c] == R[c]
  }

  // ---------------------------------------------------------------------------
  // One instruction.

  /** The check of one instruction rewrites at most its two value cells, only
      assigns ids to slots that had none, and sets the flag to -1 exactly when a
      named source slot has no id yet or a CAL's label has an empty table entry. A
      destination gets its slot's id, drawing a new one from the counter when the
      slot has none; a source that has an id gets it, and one that has none is
      left as it is. */
  lemma CheckFacts(s: Resolving, p: nat)
    requires Valid(s) && p < RAM_SIZE && s.ram[p] < 8 && s.ram[p] != RET && p + Length(s.ram[p]) < RAM_SIZE
    requires Check(s, p).Next?
    ensures var t := Check(s, p).s;
      && (forall c :: 0 <= c < RAM_SIZE && !Rewritable(s.ram, p, c) ==> t.ram[c] == s.ram[c])
      && (forall x :: 0 <= x < SEEN_SIZE && s.seen[x] != NO_SYMBOL ==> t.seen[x] == s.seen[x])
      && (DestNamed(s.ram, p) ==>
            && s.ram[p + 2] < SEEN_SIZE
            && t.seen == s.seen[s.ram[p + 2] := t.ram[p + 2]]
            && if s.seen[s.ram[p + 2]] == NO_SYMBOL
               then t.ram[p + 2] == s.counter && t.counter == Wrap(s.counter + 1)
               else t.ram[p + 2] == s.seen[s.ram[p + 2]] && t.counter == s.counter)
      && (!DestNamed(s.ram, p) ==> t.seen == s.seen && t.counter == s.counter)
      && (SourceNamed(s.ram, p) ==>
            && s.ram[p + 4] < SEEN_SIZE
            && (s.seen[s.ram[p + 4]] != NO_SYMBOL ==> t.ram[p + 4] == s.seen[s.ram[p + 4]])
            && (s.seen[s.ram[p + 4]] == NO_SYMBOL ==> t.ram[p + 4] == s.ram[p + 4]))
      && (t.err == s.err || t.err == -1)
      && (t.err == -1 <==>
            || s.err == -1
            || (SourceNamed(s.ram, p) && s.seen[s.ram[p + 4]] == NO_SYMBOL)
            || (s.ram[p] == CAL && s.ram[s.ram[p + 2]] == NO_FUNCTION))
  {
  }

  /** The frame part of CheckFacts: only the value cells of a MOV or REF change. */
  lemma CheckCells(s: Resolving, p: nat)
    requires Valid(s) && p < RAM_SIZE && s.ram[p] < 8 && s.ram[p] != RET && p + Length(s.ram[p]) < RAM_SIZE
    requires Check(s, p).Next?
    ensures forall c :: 0 <= c < RAM_SIZE && !Rewritable(s.ram, p, c) ==> Check(s, p).s.ram[c] == s.ram[c]
  {
    CheckFacts(s, p);
  }

  // ---------------------------------------------------------------------------
  // One function's walk.

  /** A walk rewrites no cell but the value cells of the MOV and REF instructions it
      steps past; in particular no cell below two bytes past its entry. */
  lemma {:induction false} WalkCells(s: Resolving, p: nat)
    requires Valid(s) && p < RAM_SIZE
    ensures Walk(s, p).Finished? ==>
      var t := Walk(s, p).s;
      && (forall c :: 0 <= c < RAM_SIZE && !WalkRewrites(s.ram, p, c) ==> t.ram[c] == s.ram[c])
      && (forall c :: 0 <= c < p + 2 && c < RAM_SIZE ==> t.ram[c] == s.ram[c])
    decreases RAM_SIZE - p
  {
    var op := s.ram[p];
    RewritesAbove(s.ram, p);
    if op != RET && op <= 7 && p + Length(op) < RAM_SIZE && Check(s, p).Next? {
      var t1 := Check(s, p).s;
      var q := p + Length(op);
      assert Walk(s, p) == Walk(t1, q);
      CheckCells(s, p);
      WalkCells(t1, q);
      if Walk(t1, q).Finished? {
        CellsStep(s.ram, t1.ram, Walk(t1, q).s.ram, p);
      }
    }
  }

  /** The inductive step of WalkCells, on the memories before the instruction at p,
      after it, and after the rest of the walk. */
  lemma CellsStep(R: seq<byte>, R1: seq<byte>, T: seq<byte>, p: nat)
    requires |R| == |R1| == |T| == RAM_SIZE && p < RAM_SIZE
    requires R[p] < 8 && R[p] != RET && p + Length(R[p]) < RAM_SIZE
    requires forall c :: 0 <= c < RAM_SIZE && !Rewritable(R, p, c) ==> R1[c] == R[c]
    requires forall c :: 0 <= c < RAM_SIZE && !WalkRewrites(R1, p + Length(R[p]), c) ==> T[c] == R1[c]
    ensures forall c :: 0 <= c < RAM_SIZE && !WalkRewrites(R, p, c) ==> T[c] == R[c]
  {
    var q := p + Length(R[p]);
    CheckBelow(R, R1, p);
    forall c | 0 <= c < RAM_SIZE && !WalkRewrites(R, p, c)
      ensures T[c] == R[c]
    {
      RewritesSame(R, R1, q, c);
      CellStep(R, R1, T, p, c);
    }
  }

  /** One instruction's check changes no cell from the next instruction upwards. */
  lemma CheckBelow(R: seq<byte>, R1: seq<byte>, p: nat)
    requires |R| == |R1| == RAM_SIZE && p < RAM_SIZE
    requires R[p] < 8 && R[p] != RET && p + Length(R[p]) < RAM_SIZE
    requires forall c :: 0 <= c < RAM_SIZE && !Rewritable(R, p, c) ==> R1[c] == R[c]
    ensures forall a :: p + Length(R[p]) <= a < RAM_SIZE ==> R1[a] == R[a]
  {
    forall a | p + Length(R[p]) <= a < RAM_SIZE
      ensures R1[a] == R[a]
    {
      assert !Rewritable(R, p, a);
    }
  }

  /** CellsStep for one cell c. */
  lemma CellStep(R: seq<byte>, R1: seq<byte>, T: seq<byte>, p: nat, c: int)
    requires |R| == |R1| == |T| == RAM_SIZE && p < RAM_SIZE && 0 <= c < RAM_SIZE
    requires R[p] < 8 && R[p] != RET && p + Length(R[p]) < RAM_SIZE
    requires !Rewritable(R, p, c) ==> R1[c] == R[c]
    requires !WalkRewrites(R1, p + Length(R[p]), c) ==> T[c] == R1[c]
    requires WalkRewrites(R1, p + Length(R[p]), c) == WalkRewrites(R, p + Length(R[p]), c)
    requires !WalkRewrites(R, p, c)
    ensures T[c] == R[c]
  {
  }

  /** A walk that finishes has met its first RET, and leaves the code walking the
      same addresses. */
  lemma {:induction false} WalkKeepsTrace(s: Resolving, p: nat)
    requires Valid(s) && p < RAM_SIZE
    ensures Walk(s, p).Finished? ==>
      && Walked(s.ram, p).stop == AtRet
      && Walked(Walk(s, p).s.ram, p) == Walked(s.ram, p)
    decreases RAM_SIZE - p
  {
    var op := s.ram[p];
    if op != RET && op <= 7 && p + Length(op) < RAM_SIZE && Check(s, p).Next? {
      var t1 := Check(s, p).s;
      var q := p + Length(op);
      assert Walk(s, p) == Walk(t1, q);
      WalkKeepsTrace(t1, q);
      if Walk(t1, q).Finished? {
        CheckCells(s, p);
        WalkCells(t1, q);
        TraceStep(s.ram, t1.ram, Walk(t1, q).s.ram, p);
      }
    }
  }

  /** The inductive step of WalkKeepsTrace. */
  lemma TraceStep(R: seq<byte>, R1: seq<byte>, T: seq<byte>, p: nat)
    requires |R| == |R1| == |T| == RAM_SIZE && p < RAM_SIZE
    requires R[p] < 8 && R[p] != RET && p + Length(R[p]) < RAM_SIZE
    requires forall c :: 0 <= c < RAM_SIZE && !Rewritable(R, p, c) ==> R1[c] == R[c]
    requires forall c :: 0 <= c < p + Length(R[p]) + 2 && c < RAM_SIZE ==> T[c] == R1[c]
    requires Walked(R1, p + Length(R[p])).stop == AtRet
    requires Walked(T, p + Length(R[p])) == Walked(R1, p + Length(R[p]))
    ensures Walked(R, p).stop == AtRet && Walked(T, p) == Walked(R, p)
  {
    var q := p + Length(R[p]);
    WalkedAbove(R, R1, q);
    WalkedStep(R, T, p);
  }

  /** Every byte of every instruction the walk from p visits, up to and including
      its RET, is the same in T as in R, except the value bytes of MOV and REF. */
  predicate KeptAlong(R: seq<byte>, T: seq<byte>, p: nat)
    requires |R| == |T| == RAM_SIZE && p < RAM_SIZE
    decreases RAM_SIZE - p
  {
    KeptAt(R, T, p) &&
    (R[p] < 8 && R[p] != RET && p + Length(R[p]) < RAM_SIZE ==> KeptAlong(R, T, p + Length(R[p])))
  }

  /** KeptAlong from p looks at R only from p upwards. */
  lemma {:induction false} KeptAlongAbove(R: seq<byte>, R1: seq<byte>, T: seq<byte>, p: nat)
    requires |R| == |R1| == |T| == RAM_SIZE && p < RAM_SIZE
    requires forall a :: p <= a < RAM_SIZE ==> R1[a] == R[a]
    ensures KeptAlong(R1, T, p) == KeptAlong(R, T, p)
    decreases RAM_SIZE - p
  {
    if R[p] < 8 && R[p] != RET && p + Length(R[p]) < RAM_SIZE {
      KeptAlongAbove(R, R1, T, p + Length(R[p]));
    }
  }

  /** The walk keeps every byte of every instruction it visits, except the value
      bytes of MOV and REF: opcodes, modes, the RET, and all of ADD, PRINT, NOT, EQU
      and CAL. */
  lemma {:induction false} WalkKeeps(s: Resolving, p: nat)
    requires Valid(s) && p < RAM_SIZE
    ensures Walk(s, p).Finished? ==> KeptAlong(s.ram, Walk(s, p).s.ram, p)
    decreases RAM_SIZE - p
  {
    var op := s.ram[p];
    if op != RET && op <= 7 && p + Length(op) < RAM_SIZE && Check(s, p).Next? {
      var t1 := Check(s, p).s;
      var q := p + Length(op);
      assert Walk(s, p) == Walk(t1, q);
      WalkKeeps(t1, q);
      if Walk(t1, q).Finished? {
        CheckCells(s, p);
        WalkCells(t1, q);
        KeptStep(s.ram, t1.ram, Walk(t1, q).s.ram, p);
      }
    }
  }

  /** The inductive step of WalkKeeps. */
  lemma KeptStep(R: seq<byte>, R1: seq<byte>, T: seq<byte>, p: nat)
    requires |R| == |R1| == |T| == RAM_SIZE && p < RAM_SIZE
    requires R[p] < 8 && R[p] != RET && p + Length(R[p]) < RAM_SIZE
    requires forall c :: 0 <= c < RAM_SIZE && !Rewritable(R, p, c) ==> R1[c] == R[c]
    requires forall c :: 0 <= c < p + Length(R[p]) + 2 && c < RAM_SIZE ==> T[c] == R1[c]
    requires KeptAlong(R1, T, p + Length(R[p]))
    ensures KeptAlong(R, T, p)
  {
    KeptAlongAbove(R, R1, T, p + Length(R[p]));
  }

  /** A slot that has an id keeps it for the rest of the walk, and the flag either
      stays or becomes -1. */
  lemma {:induction false} WalkMonotone(s: Resolving, p: nat)
    requires Valid(s) && p < RAM_SIZE
    ensures Walk(s, p).Finished? ==>
      var t := Walk(s, p).s;
      && (forall x :: 0 <= x < SEEN_SIZE && s.seen[x] != NO_SYMBOL ==> t.seen[x] == s.seen[x])
      && (t.err == s.err || t.err == -1)
    decreases RAM_SIZE - p
  {
    var op := s.ram[p];
    if op != RET && op <= 7 && p + Length(op) < RAM_SIZE && Check(s, p).Next? {
      CheckFacts(s, p);
      WalkMonotone(Check(s, p).s, p + Length(op));
    }
  }

  /** The walk's end mirrors the code's shape: it hangs only on a byte that is no
      opcode, and an instruction reaching past RAM[255] is undefined behaviour. */
  lemma {:induction false} WalkEnds(s: Resolving, p: nat)
    requires Valid(s) && p < RAM_SIZE
    ensures Walk(s, p) == Hangs ==> Walked(s.ram, p).stop == Spins
    ensures Walked(s.ram, p).stop == RunsOff ==> Walk(s, p) == OutOfBounds
    ensures Walked(s.ram, p).stop == AtRet ==> Walk(s, p) != Hangs
    decreases RAM_SIZE - p
  {
    var op := s.ram[p];
    if op != RET && op <= 7 && p + Length(op) < RAM_SIZE && Check(s, p).Next? {
      var t1 := Check(s, p).s;
      var q := p + Length(op);
      assert Walk(s, p) == Walk(t1, q);
      assert Walked(s.ram, p).stop == Walked(s.ram, q).stop;
      CheckCells(s, p);
      CheckBelow(s.ram, t1.ram, p);
      WalkedAbove(s.ram, t1.ram, q);
      WalkEnds(t1, q);
    }
  }

  // ---------------------------------------------------------------------------
  // Names along a walk.

  /** The slots that have ids once the instruction at p is checked, from `named`,
      those that had them before: a destination naming a slot without one draws
      the counter, which names the slot unless it drew NO_SYMBOL itself. */
  function NamedAfter(R: seq<byte>, p: nat, named: set<int>, counter: byte): set<int>
    requires |R| == RAM_SIZE
  {
    if DestNamed(R, p) && R[p + 2] !in named && counter != NO_SYMBOL then named + {R[p + 2] as int} else named
  }

  /** The counter once the instruction at p is checked: bumped by a draw. */
  function CounterAfter(R: seq<byte>, p: nat, named: set<int>, counter: byte): byte
    requires |R| == RAM_SIZE
  {
    if DestNamed(R, p) && R[p + 2] !in named then Wrap(counter + 1) else counter
  }

  /** Along the walk from p, up to its RET, in the state t after the walk, where
      `named` holds the slots that have ids and `counter` is the counter when the
      walk reaches p: a destination naming slot x holds x's id if x had one, and
      otherwise the counter it drew, which is x's id unless it was NO_SYMBOL; a
      source naming slot y holds y's id if y had one, and otherwise stays y. */
  predicate NamedAlong(R: seq<byte>, t: Resolving, p: nat, named: set<int>, counter: byte)
    requires |R| == RAM_SIZE && Valid(t) && p < RAM_SIZE
    decreases RAM_SIZE - p
  {
    var op := R[p];
    op < 8 && op != RET && p + Length(op) < RAM_SIZE ==>
      && (DestNamed(R, p) ==>
            && R[p + 2] < SEEN_SIZE
            && (R[p + 2] in named ==> t.ram[p + 2] == t.seen[R[p + 2]])
            && (R[p + 2] !in named ==>
                  t.ram[p + 2] == counter && (counter != NO_SYMBOL ==> t.seen[R[p + 2]] == counter)))
      && (SourceNamed(R, p) ==>
            && R[p + 4] < SEEN_SIZE
            && (R[p + 4] in named ==> t.ram[p + 4] == t.seen[R[p + 4]])
            && (R[p + 4] !in named ==> t.ram[p + 4] == R[p + 4]))
      && NamedAlong(R, t, p + Length(op), NamedAfter(R, p, named, counter), CounterAfter(R, p, named, counter))
  }

  /** NamedAlong from p looks at R only from p upwards. */
  lemma {:induction false} NamedAlongAbove(R: seq<byte>, R1: seq<byte>, t: Resolving, p: nat, named: set<int>, counter: byte)
    requires |R| == |R1| == RAM_SIZE && Valid(t) && p < RAM_SIZE
    requires forall a :: p <= a < RAM_SIZE ==> R1[a] == R[a]
    ensures NamedAlong(R1, t, p, named, counter) == NamedAlong(R, t, p, named, counter)
    decreases RAM_SIZE - p
  {
    if R[p] < 8 && R[p] != RET && p + Length(R[p]) < RAM_SIZE {
      NamedAlongAbove(R, R1, t, p + Length(R[p]), NamedAfter(R, p, named, counter), CounterAfter(R, p, named, counter));
    }
  }

  /** The naming invariant of a walk: each raw slot a destination names is renamed
      to the one id the slot keeps for the rest of the function, and each source
      to the id its slot had when it was read, whatever the flag says. `named` is
      the set of slots that have ids when the walk starts. */
  lemma {:induction false} WalkNames(s: Resolving, p: nat, named: set<int>)
    requires Valid(s) && p < RAM_SIZE
    requires forall y :: 0 <= y < SEEN_SIZE ==> (y in named <==> s.seen[y] != NO_SYMBOL)
    ensures Walk(s, p).Finished? ==> NamedAlong(s.ram, Walk(s, p).s, p, named, s.counter)
    decreases RAM_SIZE - p
  {
    var op := s.ram[p];
    if op != RET && op <= 7 && p + Length(op) < RAM_SIZE && Check(s, p).Next? {
      var t1 := Check(s, p).s;
      var q := p + Length(op);
      assert Walk(s, p) == Walk(t1, q);
      CheckFacts(s, p);
      NamesPass(s, t1, p, named);
      WalkNames(t1, q, NamedAfter(s.ram, p, named, s.counter));
      if Walk(t1, q).Finished? {
        WalkCells(t1, q);
        WalkMonotone(t1, q);
        NamesStep(s, t1, Walk(t1, q).s, p, named);
      }
    }
  }

  /** The state after the instruction at p has ids for exactly NamedAfter, and its
      counter is CounterAfter. */
  lemma NamesPass(s: Resolving, t1: Resolving, p: nat, named: set<int>)
    requires Valid(s) && Valid(t1) && p < RAM_SIZE
    requires forall y :: 0 <= y < SEEN_SIZE ==> (y in named <==> s.seen[y] != NO_SYMBOL)
    requires DestNamed(s.ram, p) ==>
      && s.ram[p + 2] < SEEN_SIZE
      && t1.seen == s.seen[s.ram[p + 2] := t1.ram[p + 2]]
      && if s.seen[s.ram[p + 2]] == NO_SYMBOL
         then t1.ram[p + 2] == s.counter && t1.counter == Wrap(s.counter + 1)
         else t1.ram[p + 2] == s.seen[s.ram[p + 2]] && t1.counter == s.counter
    requires !DestNamed(s.ram, p) ==> t1.seen == s.seen && t1.counter == s.counter
    ensures forall y :: 0 <= y < SEEN_SIZE ==> (y in NamedAfter(s.ram, p, named, s.counter) <==> t1.seen[y] != NO_SYMBOL)
    ensures t1.counter == CounterAfter(s.ram, p, named, s.counter)
  {
  }

  /** The inductive step of WalkNames, on the states before the instruction at p,
      after it, and after the rest of the walk. */
  lemma NamesStep(s: Resolving, t1: Resolving, t: Resolving, p: nat, named: set<int>)
    requires Valid(s) && Valid(t1) && Valid(t) && p < RAM_SIZE
    requires s.ram[p] < 8 && s.ram[p] != RET && p + Length(s.ram[p]) < RAM_SIZE
    requires forall y :: 0 <= y < SEEN_SIZE ==> (y in named <==> s.seen[y] != NO_SYMBOL)
    requires forall c :: 0 <= c < RAM_SIZE && !Rewritable(s.ram, p, c) ==> t1.ram[c] == s.ram[c]
    requires forall x :: 0 <= x < SEEN_SIZE && s.seen[x] != NO_SYMBOL ==> t1.seen[x] == s.seen[x]
    requires DestNamed(s.ram, p) ==>
      && s.ram[p + 2] < SEEN_SIZE
      && t1.seen == s.seen[s.ram[p + 2] := t1.ram[p + 2]]
      && (s.seen[s.ram[p + 2]] == NO_SYMBOL ==> t1.ram[p + 2] == s.counter)
      && (s.seen[s.ram[p + 2]] != NO_SYMBOL ==> t1.ram[p + 2] == s.seen[s.ram[p + 2]])
    requires SourceNamed(s.ram, p) ==>
      && s.ram[p + 4] < SEEN_SIZE
      && (s.seen[s.ram[p + 4]] != NO_SYMBOL ==> t1.ram[p + 4] == s.seen[s.ram[p + 4]])
      && (s.seen[s.ram[p + 4]] == NO_SYMBOL ==> t1.ram[p + 4] == s.ram[p + 4])
    requires forall c :: 0 <= c < p + Length(s.ram[p]) + 2 && c < RAM_SIZE ==> t.ram[c] == t1.ram[c]
    requires forall x :: 0 <= x < SEEN_SIZE && t1.seen[x] != NO_SYMBOL ==> t.seen[x] == t1.seen[x]
    requires NamedAlong(t1.ram, t, p + Length(s.ram[p]), NamedAfter(s.ram, p, named, s.counter), CounterAfter(s.ram, p, named, s.counter))
    ensures NamedAlong(s.ram, t, p, named, s.counter)
  {
    NamedAlongAbove(s.ram, t1.ram, t, p + Length(s.ram[p]), NamedAfter(s.ram, p, named, s.counter), CounterAfter(s.ram, p, named, s.counter));
  }

  // ---------------------------------------------------------------------------
  // The error flag along a walk.

  /** Every CAL on the walk from p names a table entry, as the loader ensures. */
  predicate CallsTable(R: seq<byte>, p: nat)
    requires |R| == RAM_SIZE && p < RAM_SIZE
    decreases RAM_SIZE - p
  {
    var op := R[p];
    op < 8 && op != RET && p + Length(op) < RAM_SIZE ==>
      (op == CAL ==> R[p + 2] < TABLE_SIZE) && CallsTable(R, p + Length(op))
  }

  /** Some instruction on the walk from p reads a slot that is neither in `named`
      nor named by an earlier destination of the walk, or calls a label whose table
      entry is empty. */
  predicate Flags(R: seq<byte>, p: nat, named: set<int>)
    requires |R| == RAM_SIZE && p < RAM_SIZE
    decreases RAM_SIZE - p
  {
    var op := R[p];
    && op < 8 && op != RET && p + Length(op) < RAM_SIZE
    && (|| (SourceNamed(R, p) && R[p + 4] !in named)
        || (op == CAL && R[R[p + 2]] == NO_FUNCTION)
        || Flags(R, p + Length(op), if DestNamed(R, p) then named + {R[p + 2] as int} else named))
  }

  /** CallsTable and Flags from p look at R only from p upwards and at the table. */
  lemma {:induction false} FlagsAbove(R: seq<byte>, R1: seq<byte>, p: nat, named: set<int>)
    requires |R| == |R1| == RAM_SIZE && TABLE_SIZE <= p < RAM_SIZE
    requires forall a :: (0 <= a < TABLE_SIZE || p <= a < RAM_SIZE) ==> R1[a] == R[a]
    ensures CallsTable(R1, p) == CallsTable(R, p)
    ensures CallsTable(R, p) ==> Flags(R1, p, named) == Flags(R, p, named)
    decreases RAM_SIZE - p
  {
    var op := R[p];
    if op < 8 && op != RET && p + Length(op) < RAM_SIZE {
      FlagsAbove(R, R1, p + Length(op), if DestNamed(R, p) then named + {R[p + 2] as int} else named);
    }
  }

  /** The ids a counter of value `counter` can still draw along the walk from p
      stay below NO_SYMBOL: each draw needs a MOV or REF, five bytes of RAM. */
  predicate RoomFor(counter: byte, p: nat)
  {
    counter + (RAM_SIZE - p) / 5 < NO_SYMBOL
  }

  /** The error flag of a walk of loaded code: it ends at -1 exactly when it was -1
      already, or the walk reads a slot no earlier destination of the function
      named, or calls an empty label. `named` is the set of slots that have ids when
      the walk starts. */
  lemma {:induction false} WalkFlags(s: Resolving, p: nat, named: set<int>)
    requires Valid(s) && TABLE_SIZE <= p < RAM_SIZE && CallsTable(s.ram, p) && RoomFor(s.counter, p)
    requires forall y :: 0 <= y < SEEN_SIZE ==> (y in named <==> s.seen[y] != NO_SYMBOL)
    ensures Walk(s, p).Finished? ==>
      (Walk(s, p).s.err == -1 <==> s.err == -1 || Flags(s.ram, p, named))
    decreases RAM_SIZE - p
  {
    var op := s.ram[p];
    if op != RET && op <= 7 && p + Length(op) < RAM_SIZE && Check(s, p).Next? {
      var t1 := Check(s, p).s;
      var q := p + Length(op);
      var named' := if DestNamed(s.ram, p) then named + {s.ram[p + 2] as int} else named;
      assert Walk(s, p) == Walk(t1, q);
      FlagsPass(s, p, named);
      FlagsAbove(s.ram, t1.ram, q, named');
      WalkFlags(t1, q, named');
    }
  }

  /** What WalkFlags needs of one instruction's check: the requirements from the
      next instruction, an unchanged table and code above, and the instruction's
      own part of Flags. */
  lemma FlagsPass(s: Resolving, p: nat, named: set<int>)
    requires Valid(s) && TABLE_SIZE <= p < RAM_SIZE && RoomFor(s.counter, p)
    requires s.ram[p] < 8 && s.ram[p] != RET && p + Length(s.ram[p]) < RAM_SIZE && Check(s, p).Next?
    requires forall y :: 0 <= y < SEEN_SIZE ==> (y in named <==> s.seen[y] != NO_SYMBOL)
    ensures var t1, q := Check(s, p).s, p + Length(s.ram[p]);
      var named' := if DestNamed(s.ram, p) then named + {s.ram[p + 2] as int} else named;
      && Valid(t1) && RoomFor(t1.counter, q)
      && (forall y :: 0 <= y < SEEN_SIZE ==> (y in named' <==> t1.seen[y] != NO_SYMBOL))
      && (forall a :: (0 <= a < TABLE_SIZE || q <= a < RAM_SIZE) ==> t1.ram[a] == s.ram[a])
      && (t1.err == -1 <==>
            || s.err == -1
            || (SourceNamed(s.ram, p) && s.ram[p + 4] !in named)
            || (s.ram[p] == CAL && s.ram[s.ram[p + 2]] == NO_FUNCTION))
  {
    var t1 := Check(s, p).s;
    CheckFacts(s, p);
    FlagsStep(s, t1, p, named);
    forall a | 0 <= a < TABLE_SIZE || p + Length(s.ram[p]) <= a < RAM_SIZE
      ensures t1.ram[a] == s.ram[a]
    {
      assert !Rewritable(s.ram, p, a);
    }
  }

  /** The inductive step of WalkFlags: the state after the instruction at p meets
      the lemma's requirements from the next instruction, and the flag it sets is
      the instruction's own part of Flags. */
  lemma FlagsStep(s: Resolving, t1: Resolving, p: nat, named: set<int>)
    requires Valid(s) && Valid(t1) && TABLE_SIZE <= p < RAM_SIZE && RoomFor(s.counter, p)
    requires s.ram[p] < 8 && s.ram[p] != RET && p + Length(s.ram[p]) < RAM_SIZE
    requires forall y :: 0 <= y < SEEN_SIZE ==> (y in named <==> s.seen[y] != NO_SYMBOL)
    requires DestNamed(s.ram, p) ==>
      && s.ram[p + 2] < SEEN_SIZE
      && t1.seen == s.seen[s.ram[p + 2] := t1.ram[p + 2]]
      && if s.seen[s.ram[p + 2]] == NO_SYMBOL
         then t1.ram[p + 2] == s.counter && t1.counter == Wrap(s.counter + 1)
         else t1.ram[p + 2] == s.seen[s.ram[p + 2]] && t1.counter == s.counter
    requires !DestNamed(s.ram, p) ==> t1.seen == s.seen && t1.counter == s.counter
    requires SourceNamed(s.ram, p) ==> s.ram[p + 4] < SEEN_SIZE
    requires t1.err == -1 <==>
      || s.err == -1
      || (SourceNamed(s.ram, p) && s.seen[s.ram[p + 4]] == NO_SYMBOL)
      || (s.ram[p] == CAL && s.ram[s.ram[p + 2]] == NO_FUNCTION)
    ensures var named' := if DestNamed(s.ram, p) then named + {s.ram[p + 2] as int} else named;
      && RoomFor(t1.counter, p + Length(s.ram[p]))
      && (forall y :: 0 <= y < SEEN_SIZE ==> (y in named' <==> t1.seen[y] != NO_SYMBOL))
      && (t1.err == -1 <==>
            || s.err == -1
            || (SourceNamed(s.ram, p) && s.ram[p + 4] !in named)
            || (s.ram[p] == CAL && s.ram[s.ram[p + 2]] == NO_FUNCTION))
  {
  }

  // ---------------------------------------------------------------------------
  // Fresh ids.

  /** While the counter has room, a walk gives each slot it names for the first
      time an id drawn from the counter, distinct from every other such slot's; the
      counter only grows. */
  lemma {:induction false} WalkFreshIds(s: Resolving, p: nat)
    requires Valid(s) && p < RAM_SIZE && RoomFor(s.counter, p)
    ensures Walk(s, p).Finished? ==>
      var t := Walk(s, p).s;
      && s.counter <= t.counter
      && (forall x :: 0 <= x < SEEN_SIZE && s.seen[x] == NO_SYMBOL && t.seen[x] != NO_SYMBOL ==>
            s.counter <= t.seen[x] < t.counter)
      && (forall x, y :: (0 <= x < SEEN_SIZE && 0 <= y < SEEN_SIZE && x != y &&
             s.seen[x] == NO_SYMBOL && s.seen[y] == NO_SYMBOL && t.seen[x] != NO_SYMBOL) ==>
            t.seen[x] != t.seen[y])
    decreases RAM_SIZE - p
  {
    var op := s.ram[p];
    if op != RET && op <= 7 && p + Length(op) < RAM_SIZE && Check(s, p).Next? {
      var t1 := Check(s, p).s;
      var q := p + Length(op);
      assert Walk(s, p) == Walk(t1, q);
      CheckFresh(s, p);
      WalkFreshIds(t1, q);
      if Walk(t1, q).Finished? {
        WalkMonotone(t1, q);
        FreshStep(s, t1, Walk(t1, q).s);
      }
    }
  }

  /** What one instruction's check does to the counter and the seen-table. */
  lemma CheckFresh(s: Resolving, p: nat)
    requires Valid(s) && p < RAM_SIZE && s.ram[p] < 8 && s.ram[p] != RET && p + Length(s.ram[p]) < RAM_SIZE
    requires Check(s, p).Next? && RoomFor(s.counter, p)
    ensures var t1 := Check(s, p).s;
      && RoomFor(t1.counter, p + Length(s.ram[p]))
      && s.counter <= t1.counter
      && (forall x :: 0 <= x < SEEN_SIZE && s.seen[x] != NO_SYMBOL ==> t1.seen[x] == s.seen[x])
      && (forall x :: 0 <= x < SEEN_SIZE && s.seen[x] == NO_SYMBOL && t1.seen[x] != NO_SYMBOL ==>
            t1.seen[x] == s.counter && t1.counter == s.counter + 1)
      && (forall x, y :: (0 <= x < SEEN_SIZE && 0 <= y < SEEN_SIZE && x != y &&
             s.seen[x] == NO_SYMBOL && t1.seen[x] != NO_SYMBOL) ==> t1.seen[y] == s.seen[y])
  {
    CheckFacts(s, p);
  }

  /** The inductive step of WalkFreshIds. */
  lemma FreshStep(s: Resolving, t1: Resolving, t: Resolving)
    requires Valid(s) && Valid(t1) && Valid(t) && s.counter < NO_SYMBOL
    requires forall x :: 0 <= x < SEEN_SIZE && s.seen[x] != NO_SYMBOL ==> t1.seen[x] == s.seen[x]
    requires forall x :: 0 <= x < SEEN_SIZE && s.seen[x] == NO_SYMBOL && t1.seen[x] != NO_SYMBOL ==>
      t1.seen[x] == s.counter && t1.counter == s.counter + 1
    requires forall x, y :: (0 <= x < SEEN_SIZE && 0 <= y < SEEN_SIZE && x != y &&
       s.seen[x] == NO_SYMBOL && t1.seen[x] != NO_SYMBOL) ==> t1.seen[y] == s.seen[y]
    requires s.counter <= t1.counter
    requires forall x :: 0 <= x < SEEN_SIZE && t1.seen[x] != NO_SYMBOL ==> t.seen[x] == t1.seen[x]
    requires t1.counter <= t.counter
    requires forall x :: 0 <= x < SEEN_SIZE && t1.seen[x] == NO_SYMBOL && t.seen[x] != NO_SYMBOL ==>
      t1.counter <= t.seen[x] < t.counter
    requires forall x, y :: (0 <= x < SEEN_SIZE && 0 <= y < SEEN_SIZE && x != y &&
       t1.seen[x] == NO_SYMBOL && t1.seen[y] == NO_SYMBOL && t.seen[x] != NO_SYMBOL) ==>
      t.seen[x] != t.seen[y]
    ensures s.counter <= t.counter
    ensures forall x :: 0 <= x < SEEN_SIZE && s.seen[x] == NO_SYMBOL && t.seen[x] != NO_SYMBOL ==>
      s.counter <= t.seen[x] < t.counter
    ensures forall x, y :: (0 <= x < SEEN_SIZE && 0 <= y < SEEN_SIZE && x != y &&
       s.seen[x] == NO_SYMBOL && s.seen[y] == NO_SYMBOL && t.seen[x] != NO_SYMBOL) ==>
      t.seen[x] != t.seen[y]
  {
  }

  // ---------------------------------------------------------------------------
  // The whole pass.

  /** Each function starts from an empty seen-table: what the pass does from entry i
      on does not depend on the seen-table it finds. Only the counter and the flag
      carry over from one function to the next. */
  lemma {:induction false} ResolveForgetsSeen(s: Resolving, seen: seq<byte>, i: nat)
    requires Valid(s) && |seen| == SEEN_SIZE && i <= TABLE_SIZE
    ensures var r, r' := ResolveFrom(s, i), ResolveFrom(s.(seen := seen), i);
      && r.Finished? == r'.Finished? && r.Hangs? == r'.Hangs?
      && (r.Finished? ==> r.s.ram == r'.s.ram && r.s.counter == r'.s.counter && r.s.err == r'.s.err)
    decreases TABLE_SIZE - i
  {
    if i < TABLE_SIZE && s.ram[i] != NO_FUNCTION {
      assert s.(seen := seen).(seen := Fresh()) == s.(seen := Fresh());
      match Walk(s.(seen := Fresh()), s.ram[i])
      case Finished(t) => ResolveForgetsSeen(t, t.seen, i + 1);
      case Hangs =>
      case OutOfBounds =>
    } else if i < TABLE_SIZE {
      ResolveForgetsSeen(s, seen, i + 1);
    }
  }

  /** A pass over functions that all start past the table leaves the table as it
      is, and the flag either stays or becomes -1. */
  lemma {:induction false} ResolveKeepsTable(s: Resolving, i: nat)
    requires Valid(s) && i <= TABLE_SIZE
    requires forall j :: i <= j < TABLE_SIZE ==> s.ram[j] == NO_FUNCTION || s.ram[j] >= TABLE_SIZE
    ensures ResolveFrom(s, i).Finished? ==>
      var t := ResolveFrom(s, i).s;
      && (forall j :: 0 <= j < TABLE_SIZE ==> t.ram[j] == s.ram[j])
      && (t.err == s.err || t.err == -1)
    decreases TABLE_SIZE - i
  {
    if i < TABLE_SIZE && s.ram[i] != NO_FUNCTION {
      var s0 := s.(seen := Fresh());
      WalkCells(s0, s.ram[i]);
      WalkMonotone(s0, s.ram[i]);
      match Walk(s0, s.ram[i])
      case Finished(t) => ResolveKeepsTable(t, i + 1);
      case Hangs =>
      case OutOfBounds =>
    } else if i < TABLE_SIZE {
      ResolveKeepsTable(s, i + 1);
    }
  }
}
