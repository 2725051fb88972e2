/** The code generator as a function of the tree: the stencils that each visit event emits, block by block. */
module BfCodegen {
  import opened Words
  import opened BfParser
  import opened BfTarget
  import opened Managed
  import opened Locations

  datatype VisitOp = LeafOps(ops: seq<Op>) | IntoLoop | OutOfLoop

  // ----- the visit -----

  function Visit(bf: BF): seq<VisitOp> {
    match bf
    case Leaf(ops) => [LeafOps(ops)]
    case Node(nodes) => VisitAll(nodes)
    case Loop(body) => [IntoLoop] + Visit(body) + [OutOfLoop]
  }

  function VisitAll(nodes: seq<BF>): seq<VisitOp> {
    if nodes == [] then [] else VisitAll(nodes[..|nodes| - 1]) + Visit(nodes[|nodes| - 1])
  }

  /** The number of loops in a tree. */
  function Loops(bf: BF): nat {
    match bf
    case Leaf(_) => 0
    case Node(nodes) => LoopsAll(nodes)
    case Loop(body) => 1 + Loops(body)
  }

  function LoopsAll(nodes: seq<BF>): nat {
    if nodes == [] then 0 else LoopsAll(nodes[..|nodes| - 1]) + Loops(nodes[|nodes| - 1])
  }

  // ----- one operation -----

  function CheckIns(panic: nat): Ins {
    Emitted(CHECK, PARAMS, [], [], [NextStencil, Target(panic)])
  }

  function RetIns(value: nat): Ins {
    Emitted(RET, [], [], [value], [])
  }

  function JmpIns(next: nat): Ins {
    Emitted(JMP, [], [], [], [Target(next)])
  }

  function EnterIns(tail: nat, panic: nat): Ins {
    Emitted(IF_ZERO, PARAMS, [], [], [Target(tail), NextStencil, Target(panic)])
  }

  function LeaveIns(start: nat, tail: nat, panic: nat): Ins {
    Emitted(IF_ZERO, PARAMS, [], [], [Target(tail), Target(start), Target(panic)])
  }

  function DataIns(stencil: Stencil, holes: seq<nat>): Ins {
    if Moves(stencil) then Emitted(stencil, INDEX, INDEX, holes, [NextStencil])
    else Emitted(stencil, PARAMS, [], holes, [NextStencil])
  }

  /** The stencil for one operation; counts of zero need none. */
  function OpCode(op: Op, host: Host): seq<Ins> {
    match op
    case IncDec(n) =>
      if n == 0 then [] else if n == 1 then [DataIns(ADD1, [])] else if n == -1 then [DataIns(SUB1, [])]
      else [DataIns(if n > 0 then ADDN else SUBN, [Abs(n)])]
    case LeftRight(n) =>
      if n == 0 then [] else if n == 1 then [DataIns(RIGHT1, [])] else if n == -1 then [DataIns(LEFT1, [])]
      else [DataIns(if n > 0 then RIGHTN else LEFTN, [Abs(n)])]
    case In => [DataIns(READ, [host.reader])]
    case Out => [DataIns(PRINT, [host.printer])]
    case SetZero => [DataIns(SET_0, [])]
    case AddTo(n) => [DataIns(ADD_TO, [Wrap(n)])]
  }

  /** What one operation adds to `movement`. */
  function Movement(op: Op): int {
    match op
    case LeftRight(n) => n
    case AddTo(n) => n
    case _ => 0
  }

  /** The code of a leaf, and the movement since the last check at its end. */
  function LeafCode(ops: seq<Op>, host: Host, panic: nat): (seq<Ins>, int) {
    if ops == [] then ([], 0)
    else
      var (code, movement) := LeafCode(ops[..|ops| - 1], host, panic);
      var op := ops[|ops| - 1];
      var moved := movement + Movement(op);
      if Abs(moved) > 1024 then (code + OpCode(op, host) + [CheckIns(panic)], 0)
      else (code + OpCode(op, host), moved)
  }

  /** The code of an operation after some movement, with the check that follows if the movement gets too large. */
  function StepCode(movement: int, op: Op, host: Host, panic: nat): seq<Ins> {
    OpCode(op, host) + if Abs(movement + Movement(op)) > 1024 then [CheckIns(panic)] else []
  }

  lemma LeafCodeStep(prefix: seq<Op>, op: Op, host: Host, panic: nat)
    ensures var (code, movement) := LeafCode(prefix, host, panic);
      LeafCode(prefix + [op], host, panic)
      == (code + StepCode(movement, op, host, panic),
          if Abs(movement + Movement(op)) > 1024 then 0 else movement + Movement(op))
  {
    hide OpCode, CheckIns, Movement;
    var all, code := prefix + [op], LeafCode(prefix, host, panic).0;
    assert all[..|all| - 1] == prefix;
    assert code + OpCode(op, host) + [CheckIns(panic)] == code + (OpCode(op, host) + [CheckIns(panic)]);
    assert code + OpCode(op, host) == code + (OpCode(op, host) + []);
  }

  lemma LeafCodeNone(host: Host, panic: nat)
    ensures LeafCode([], host, panic) == ([], 0)
  {
  }

  // ----- the blocks -----

  lemma AppendNothing(code: Graph, block: nat)
    requires block < |code|
    ensures Append(code, block, []) == code
  {
    assert code[block] + [] == code[block];
  }

  lemma AppendTwice(code: Graph, block: nat, x: seq<Ins>, y: seq<Ins>)
    requires block < |code|
    ensures Append(Append(code, block, x), block, y) == Append(code, block, x + y)
  {
    assert code[block] + x + y == code[block] + (x + y);
  }

  /** The state of the generator: the code of each block, the current block, the preallocated
      blocks `lo..hi` that no loop has taken, and the start and tail of each open loop. */
  datatype Gen = Gen(code: Graph, cur: nat, lo: nat, hi: nat, stack: seq<(nat, nat)>)

  function Append(code: Graph, block: nat, added: seq<Ins>): (r: Graph)
    requires block < |code|
    ensures |r| == |code|
    ensures forall b :: 0 <= b < |code| ==> r[b] == if b == block then code[b] + added else code[b]
  {
    code[block := code[block] + added]
  }

  /** The blocks and the stack that the event needs are there; without this the compiler panics. */
  predicate Ready(g: Gen, ev: VisitOp, panic: nat) {
    && g.cur < |g.code| && g.hi <= |g.code| && panic < |g.code|
    && match ev
       case LeafOps(_) => true
       case IntoLoop => g.lo + 2 <= g.hi
       case OutOfLoop => g.stack != [] && g.stack[|g.stack| - 1].1 < |g.code|
  }

  function GenEvent(g: Gen, ev: VisitOp, host: Host, panic: nat): Gen
    requires Ready(g, ev, panic)
  {
    match ev
    case LeafOps(ops) => g.(code := Append(g.code, g.cur, LeafCode(ops, host, panic).0))
    case IntoLoop =>
      var (next, tail) := (g.lo, g.hi - 1);
      Gen(Append(Append(g.code, g.cur, [JmpIns(next)]), next, [EnterIns(tail, panic)]),
          next, g.lo + 1, g.hi - 1, g.stack + [(next, tail)])
    case OutOfLoop =>
      var (start, tail) := g.stack[|g.stack| - 1];
      g.(code := Append(g.code, g.cur, [LeaveIns(start, tail, panic)]), cur := tail, stack := g.stack[..|g.stack| - 1])
  }

  predicate AllReady(g: Gen, evs: seq<VisitOp>, host: Host, panic: nat)
    decreases |evs|, 0
  {
    evs == [] || (AllReady(g, evs[..|evs| - 1], host, panic)
                  && Ready(GenAll(g, evs[..|evs| - 1], host, panic), evs[|evs| - 1], panic))
  }

  function GenAll(g: Gen, evs: seq<VisitOp>, host: Host, panic: nat): Gen
    requires AllReady(g, evs, host, panic)
    decreases |evs|, 1
  {
    if evs == [] then g
    else GenEvent(GenAll(g, evs[..|evs| - 1], host, panic), evs[|evs| - 1], host, panic)
  }

  lemma GenNone(g: Gen, host: Host, panic: nat)
    ensures AllReady(g, [], host, panic) && GenAll(g, [], host, panic) == g
  {
  }

  lemma GenOne(g: Gen, ev: VisitOp, host: Host, panic: nat)
    requires Ready(g, ev, panic)
    ensures AllReady(g, [ev], host, panic) && GenAll(g, [ev], host, panic) == GenEvent(g, ev, host, panic)
  {
    assert [ev][..0] == [];
  }

  lemma {:induction false} GenConcat(g: Gen, a: seq<VisitOp>, b: seq<VisitOp>, host: Host, panic: nat)
    requires AllReady(g, a, host, panic) && AllReady(GenAll(g, a, host, panic), b, host, panic)
    ensures AllReady(g, a + b, host, panic)
    ensures GenAll(g, a + b, host, panic) == GenAll(GenAll(g, a, host, panic), b, host, panic)
    decreases |b|
  {
    hide Ready, GenEvent;
    if b == [] {
      assert a + b == a;
    } else {
      var init, last := b[..|b| - 1], b[|b| - 1];
      GenConcat(g, a, init, host, panic);
      var all := a + b;
      assert all[..|all| - 1] == a + init && all[|all| - 1] == last;
    }
  }

  /** The blocks before the second visit: the entry, a start and a tail for each loop, and the panic block. */
  function GenStart(loops: nat): (g: Gen)
    ensures |g.code| == 2 * loops + 2
  {
    Gen(seq(2 * loops + 2, _ => []), 0, 1, 2 * loops + 1, [])
  }

  function PanicBlock(loops: nat): nat {
    2 * loops + 1
  }

  /** The last check and the two returns. */
  function GenFinish(g: Gen, panic: nat): Graph
    requires g.cur < |g.code| && panic < |g.code|
  {
    Append(Append(g.code, g.cur, [CheckIns(panic), RetIns(0)]), panic, [RetIns(Wrap(-1))])
  }

  // ----- the bookkeeping never fails -----

  /** How visiting a tree with `loops` loops changes everything but the code. */
  ghost predicate Consumes(g: Gen, r: Gen, loops: nat) {
    && |r.code| == |g.code| && r.cur < |g.code|
    && r.lo == g.lo + loops && r.hi == g.hi - loops && r.stack == g.stack
    && (r.cur == g.cur || g.hi - loops <= r.cur < g.hi)
  }

  lemma {:induction false} VisitReady(bf: BF, g: Gen, host: Host, panic: nat)
    requires g.cur < |g.code| && panic < |g.code| && g.lo + 2 * Loops(bf) <= g.hi <= |g.code|
    ensures AllReady(g, Visit(bf), host, panic)
    ensures Consumes(g, GenAll(g, Visit(bf), host, panic), Loops(bf))
    decreases bf
  {
    hide GenAll, AllReady;
    match bf
    case Leaf(ops) =>
      GenOne(g, LeafOps(ops), host, panic);
    case Node(nodes) =>
      VisitAllReady(nodes, g, host, panic);
    case Loop(body) =>
      GenOne(g, IntoLoop, host, panic);
      var g1 := GenEvent(g, IntoLoop, host, panic);
      VisitReady(body, g1, host, panic);
      GenConcat(g, [IntoLoop], Visit(body), host, panic);
      var g2 := GenAll(g1, Visit(body), host, panic);
      assert g2.stack == g.stack + [(g.lo, g.hi - 1)];
      GenOne(g2, OutOfLoop, host, panic);
      GenConcat(g, [IntoLoop] + Visit(body), [OutOfLoop], host, panic);
      assert g2.stack[..|g.stack|] == g.stack;
  }

  lemma {:induction false} VisitAllReady(nodes: seq<BF>, g: Gen, host: Host, panic: nat)
    requires g.cur < |g.code| && panic < |g.code| && g.lo + 2 * LoopsAll(nodes) <= g.hi <= |g.code|
    ensures AllReady(g, VisitAll(nodes), host, panic)
    ensures Consumes(g, GenAll(g, VisitAll(nodes), host, panic), LoopsAll(nodes))
    decreases nodes
  {
    if nodes == [] {
      assert GenAll(g, [], host, panic) == g;
    } else {
      var init, last := nodes[..|nodes| - 1], nodes[|nodes| - 1];
      VisitAllReady(init, g, host, panic);
      VisitReady(last, GenAll(g, VisitAll(init), host, panic), host, panic);
      GenConcat(g, VisitAll(init), Visit(last), host, panic);
    }
  }

  /** The whole code of a tree. */
  function Generated(bf: BF, host: Host): Graph {
    var panic := PanicBlock(Loops(bf));
    VisitReady(bf, GenStart(Loops(bf)), host, panic);
    GenFinish(GenAll(GenStart(Loops(bf)), Visit(bf), host, panic), panic)
  }
}
