/** The semantic pass: walks every function in the table from its entry to its
    first RET, renames the raw stack slots of SYMBL and PNTR operands to ids drawn
    from a counter that runs over the whole program, and flags reads of slots not
    yet written in the function and calls of empty labels. */
module Resolver {
  import opened Isa
  import opened Code

  /** Entries of the seen-table: one per raw 5-bit stack slot. */
  const SEEN_SIZE: nat := 32

  /** The pass between two instructions: RAM, the seen-table (raw slot to id, or
      NO_SYMBOL), the symbol counter (an unsigned char) and the error flag. */
  datatype Resolving = Resolving(ram: seq<byte>, seen: seq<byte>, counter: byte, err: int)

  predicate Valid(s: Resolving)
  {
    |s.ram| == RAM_SIZE && |s.seen| == SEEN_SIZE
  }

  /** The seen-table as each function's walk starts it: no slot seen. */
  function Fresh(): (t: seq<byte>)
    ensures |t| == SEEN_SIZE && forall x :: 0 <= x < SEEN_SIZE ==> t[x] == NO_SYMBOL
  {
    seq(SEEN_SIZE, _ => NO_SYMBOL)
  }

  /** The source operand of MOV (SYMBL or PNTR) and of REF (SYMBL only) names a slot. */
  predicate NamedSource(op: byte, mode: byte)
  {
    if op == MOV then IsStackMode(mode) else mode == SYMBL
  }

  /** A source naming slot y: an error if y has no id yet, else y's id replaces it. */
  function UseSource(s: Resolving, p: nat): (r: Resolving)
    requires Valid(s) && p + 4 < RAM_SIZE && s.ram[p + 4] < SEEN_SIZE
    ensures Valid(r)
  {
    var y := s.ram[p + 4];
    if s.seen[y] == NO_SYMBOL then s.(err := -1) else s.(ram := s.ram[p + 4 := s.seen[y]])
  }

  /** A destination naming slot x: the first one in the function draws the counter
      as x's id and bumps the counter; later ones get x's id. */
  function NameDest(s: Resolving, p: nat): (r: Resolving)
    requires Valid(s) && p + 2 < RAM_SIZE && s.ram[p + 2] < SEEN_SIZE
    ensures Valid(r)
  {
    var x := s.ram[p + 2];
    if s.seen[x] == NO_SYMBOL then
      s.(ram := s.ram[p + 2 := s.counter], seen := s.seen[x := s.counter], counter := Wrap(s.counter + 1))
    else s.(ram := s.ram[p + 2 := s.seen[x]])
  }

  /** The result of checking one instruction: the new state, or a seen-table index
      past its 32 entries (undefined behaviour in the C). */
  datatype Step = Next(s: Resolving) | Fault

  /** The checks of the instruction at p, whose bytes all lie in RAM. */
  function Check(s: Resolving, p: nat): (r: Step)
    requires Valid(s) && p < RAM_SIZE && s.ram[p] < 8 && s.ram[p] != RET && p + Length(s.ram[p]) < RAM_SIZE
    ensures r.Next? ==> Valid(r.s)
  {
    var op := s.ram[p];
    if op == MOV || op == REF then
      var src := NamedSource(op, s.ram[p + 3]);
      var dst := IsStackMode(s.ram[p + 1]);
      if (src && s.ram[p + 4] >= SEEN_SIZE) || (dst && s.ram[p + 2] >= SEEN_SIZE) then Fault
      else
        var s1 := if src then UseSource(s, p) else s;
        Next(if dst then NameDest(s1, p) else s1)
    else if op == CAL then
      Next(if s.ram[s.ram[p + 2]] == NO_FUNCTION then s.(err := -1) else s)
    else Next(s)
  }

  /** How a walk, or the whole pass, ends: with the final state, spinning forever on
      a byte that is no opcode, or in undefined behaviour (RAM read past 255, or
      seen-table index past 31). */
  datatype Outcome = Finished(s: Resolving) | Hangs | OutOfBounds

  /** The walk of one function from address p up to its first RET. */
  function Walk(s: Resolving, p: nat): (r: Outcome)
    requires Valid(s) && p < RAM_SIZE
    ensures r.Finished? ==> Valid(r.s)
    decreases RAM_SIZE - p
  {
    var op := s.ram[p];
    if op == RET then Finished(s)
    else if op > 7 then Hangs
    else if p + Length(op) >= RAM_SIZE then OutOfBounds
    else
      match Check(s, p)
      case Fault => OutOfBounds
      case Next(t) => Walk(t, p + Length(op))
  }

  /** The loop over table entries i, i + 1, ..., 7: each non-empty one is walked
      with a fresh seen-table; the counter and the flag carry over. */
  function ResolveFrom(s: Resolving, i: nat): (r: Outcome)
    requires Valid(s) && i <= TABLE_SIZE
    ensures r.Finished? ==> Valid(r.s)
    decreases TABLE_SIZE - i
  {
    if i == TABLE_SIZE then Finished(s)
    else if s.ram[i] == NO_FUNCTION then ResolveFrom(s, i + 1)
    else
      match Walk(s.(seen := Fresh()), s.ram[i])
      case Finished(t) => ResolveFrom(t, i + 1)
      case Hangs => Hangs
      case OutOfBounds => OutOfBounds
  }

  /** The whole pass over loaded RAM: counter and flag start at 0. */
  function ResolveSpec(ram: seq<byte>): Outcome
    requires |ram| == RAM_SIZE
  {
    ResolveFrom(Resolving(ram, Fresh(), 0, 0), 0)
  }

  // ---------------------------------------------------------------------------
  // The C pass.

  /** The `switch` on one opcode, in place. On a fault it stops before changing anything. */
  method CheckInstruction(ram: array<byte>, seen: array<byte>, counter: byte, err: int, p: nat)
    returns (counter': byte, err': int, fault: bool)
    requires ram.Length == RAM_SIZE && seen.Length == SEEN_SIZE && ram != seen
    requires p < RAM_SIZE && ram[p] < 8 && ram[p] != RET && p + Length(ram[p]) < RAM_SIZE
    modifies ram, seen
    ensures var c := Check(Resolving(old(ram[..]), old(seen[..]), counter, err), p);
      if fault then c == Fault else c == Next(Resolving(ram[..], seen[..], counter', err'))
  {
    ghost var s := Resolving(ram[..], seen[..], counter, err);
    counter', err', fault := counter, err, false;
    var op := ram[p];
    if op == MOV || op == REF {
      var arg1, arg1v, arg2, arg2v := ram[p + 1], ram[p + 2], ram[p + 3], ram[p + 4];
      var src := if op == MOV then arg2 == SYMBL || arg2 == PNTR else arg2 == SYMBL;
      var dst := arg1 == SYMBL || arg1 == PNTR;
      if (src && arg2v >= SEEN_SIZE) || (dst && arg1v >= SEEN_SIZE) {
        return counter', err', true;
      }
      if src {
        if seen[arg2v] == NO_SYMBOL {
          err' := -1;
        } else {
          ram[p + 4] := seen[arg2v];
        }
      }
      ghost var s1 := Resolving(ram[..], seen[..], counter', err');
      assert s1 == if src then UseSource(s, p) else s;
      if dst {
        if seen[arg1v] == NO_SYMBOL {
          seen[arg1v] := counter';
          ram[p + 2] := counter';
          counter' := Wrap(counter' + 1);
        } else {
          ram[p + 2] := seen[arg1v];
        }
        assert Resolving(ram[..], seen[..], counter', err') == NameDest(s1, p);
      }
    } else if op == CAL {
      if ram[ram[p + 2]] == NO_FUNCTION {
        err' := -1;
      }
    }
  }

  /** The `while(1)` loop of one function, from entry p. Where the C spins forever
      this returns Spinning; where it reads past RAM, Overrun. */
  method WalkFunction(ram: array<byte>, seen: array<byte>, counter: byte, err: int, p: nat)
    returns (counter': byte, err': int, status: Status)
    requires ram.Length == RAM_SIZE && seen.Length == SEEN_SIZE && ram != seen && p < RAM_SIZE
    modifies ram, seen
    ensures var w := Walk(Resolving(old(ram[..]), old(seen[..]), counter, err), p);
      match status
      case Done => w == Finished(Resolving(ram[..], seen[..], counter', err'))
      case Spinning => w == Hangs
      case Overrun => w == OutOfBounds
  {
    ghost var s0 := Resolving(ram[..], seen[..], counter, err);
    counter', err' := counter, err;
    var ptr := p;
    while true
      invariant ptr < RAM_SIZE
      invariant Walk(Resolving(ram[..], seen[..], counter', err'), ptr) == Walk(s0, p)
      decreases RAM_SIZE - ptr
    {
      var op := ram[ptr];
      if op == RET {
        return counter', err', Done;
      }
      if op > 7 {
        return counter', err', Spinning;
      }
      if ptr + Length(op) >= RAM_SIZE {
        return counter', err', Overrun;
      }
      var fault;
      counter', err', fault := CheckInstruction(ram, seen, counter', err', ptr);
      if fault {
        return counter', err', Overrun;
      }
      ptr := ptr + Length(op);
    }
  }

  /** The semantic pass of main: every non-empty table entry, in label order. */
  method Resolve(ram: array<byte>) returns (err: int, status: Status)
    requires ram.Length == RAM_SIZE
    modifies ram
    ensures match ResolveSpec(old(ram[..]))
      case Finished(t) => status == Done && ram[..] == t.ram && err == t.err
      case Hangs => status == Spinning
      case OutOfBounds => status == Overrun
  {
    var seen := new byte[SEEN_SIZE](_ => NO_SYMBOL);
    var counter: byte := 0;
    err := 0;
    assert seen[..] == Fresh();
    var i := 0;
    while i < TABLE_SIZE
      invariant i <= TABLE_SIZE && ram != seen
      invariant ResolveFrom(Resolving(ram[..], seen[..], counter, err), i) == ResolveSpec(old(ram[..]))
      modifies ram, seen
    {
      if ram[i] != NO_FUNCTION {
        var entry := ram[i];
        ghost var before := ram[..];
        for j := 0 to SEEN_SIZE
          invariant forall x :: 0 <= x < j ==> seen[x] == NO_SYMBOL
          invariant ram[..] == before
        {
          seen[j] := NO_SYMBOL;
        }
        assert seen[..] == Fresh();
        counter, err, status := WalkFunction(ram, seen, counter, err, entry);
        if status != Done {
          return;
        }
      }
      i := i + 1;
    }
    status := Done;
  }
}
