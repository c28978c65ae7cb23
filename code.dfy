/** The shape of loaded code as the resolver and the disassembler walk it: from a
    function's entry, instruction by instruction, each one Length(op) bytes after
    the previous, until the first RET. */
module Code {
  import opened Isa

  /** How a walk ends: on a RET, on a byte that is no opcode (both C loops then spin
      without moving), or with an instruction that reaches past RAM[255]. */
  datatype Stop = AtRet | Spins | RunsOff

  /** How one of the C loops that walk code ends: it leaves normally, spins forever,
      or has read past RAM[255]. */
  datatype Status = Done | Spinning | Overrun

  /** The addresses a walk visits, in order, the last one included, and how it ends. */
  datatype Trace = Trace(addrs: seq<nat>, stop: Stop)

  /** The visited addresses follow one another: each but the last holds an opcode
      other than RET, and the next starts right after it. */
  predicate Chained(ram: seq<byte>, addrs: seq<nat>)
  {
    forall k :: 0 <= k < |addrs| - 1 ==>
      addrs[k] < |ram| && ram[addrs[k]] < 8 && ram[addrs[k]] != RET &&
      addrs[k + 1] == addrs[k] + Length(ram[addrs[k]])
  }

  /** What ends the walk at its last address a: a RET there, a byte there that is
      no opcode, or an instruction there whose successor would lie past RAM[255]. */
  predicate Ends(ram: seq<byte>, a: nat, stop: Stop)
    requires a < |ram|
  {
    match stop
    case AtRet => ram[a] == RET
    case Spins => ram[a] > 7
    case RunsOff => ram[a] < 8 && ram[a] != RET && a + Length(ram[a]) >= RAM_SIZE
  }

  /** The walk from entry p. */
  function Walked(ram: seq<byte>, p: nat): (t: Trace)
    requires |ram| == RAM_SIZE && p < RAM_SIZE
    ensures |t.addrs| >= 1 && t.addrs[0] == p
    ensures Chained(ram, t.addrs)
    ensures forall k :: 0 <= k < |t.addrs| ==> p <= t.addrs[k] < RAM_SIZE
    ensures Ends(ram, t.addrs[|t.addrs| - 1], t.stop)
    decreases RAM_SIZE - p
  {
    var op := ram[p];
    if op == RET then Trace([p], AtRet)
    else if op > 7 then Trace([p], Spins)
    else if p + Length(op) >= RAM_SIZE then Trace([p], RunsOff)
    else
      var t := Walked(ram, p + Length(op));
      Trace([p] + t.addrs, t.stop)
  }

  /** Cell c is a value cell (+2 or +4) of a MOV or REF at address a: a cell the
      resolver may rewrite. */
  predicate Rewritable(ram: seq<byte>, a: int, c: int)
    requires 0 <= a < |ram|
  {
    (ram[a] == MOV || ram[a] == REF) && (c == a + 2 || c == a + 4)
  }

  /** Cell c is a value cell of an instruction the walk from p visits and steps
      past. */
  predicate WalkRewrites(ram: seq<byte>, p: nat, c: int)
    requires |ram| == RAM_SIZE && p < RAM_SIZE
    decreases RAM_SIZE - p
  {
    var op := ram[p];
    op < 8 && op != RET && p + Length(op) < RAM_SIZE &&
    (Rewritable(ram, p, c) || WalkRewrites(ram, p + Length(op), c))
  }

  /** Two memories that agree from address p upwards give the same walk from p. */
  lemma {:induction false} WalkedAbove(ram: seq<byte>, ram': seq<byte>, p: nat)
    requires |ram| == |ram'| == RAM_SIZE && p < RAM_SIZE
    requires forall a :: p <= a < RAM_SIZE ==> ram'[a] == ram[a]
    ensures Walked(ram', p) == Walked(ram, p)
    decreases RAM_SIZE - p
  {
    var op := ram[p];
    if op != RET && op <= 7 && p + Length(op) < RAM_SIZE {
      WalkedAbove(ram, ram', p + Length(op));
    }
  }

  /** Two memories that agree from address p upwards have the same value cells
      along the walk from p. */
  lemma {:induction false} RewritesSame(ram: seq<byte>, ram': seq<byte>, p: nat, c: int)
    requires |ram| == |ram'| == RAM_SIZE && p < RAM_SIZE
    requires forall a :: p <= a < RAM_SIZE ==> ram'[a] == ram[a]
    ensures WalkRewrites(ram', p, c) == WalkRewrites(ram, p, c)
    decreases RAM_SIZE - p
  {
    var op := ram[p];
    if op != RET && op <= 7 && p + Length(op) < RAM_SIZE {
      RewritesSame(ram, ram', p + Length(op), c);
    }
  }

  /** The value cells of a walk lie at least two bytes above its entry. */
  lemma {:induction false} RewritesAbove(ram: seq<byte>, p: nat)
    requires |ram| == RAM_SIZE && p < RAM_SIZE
    ensures forall c :: WalkRewrites(ram, p, c) ==> c >= p + 2
    decreases RAM_SIZE - p
  {
    var op := ram[p];
    if op != RET && op <= 7 && p + Length(op) < RAM_SIZE {
      RewritesAbove(ram, p + Length(op));
    }
  }

  /** Two memories that hold the same instruction at p, and whose walks from the
      next instruction agree, have the same walk from p. */
  lemma WalkedStep(ram: seq<byte>, ram': seq<byte>, p: nat)
    requires |ram| == |ram'| == RAM_SIZE && p < RAM_SIZE && ram'[p] == ram[p]
    requires ram[p] < 8 && ram[p] != RET && p + Length(ram[p]) < RAM_SIZE
    requires Walked(ram', p + Length(ram[p])) == Walked(ram, p + Length(ram[p]))
    ensures Walked(ram', p) == Walked(ram, p)
  {
  }
}
