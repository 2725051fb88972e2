/** The machine that runs compiled brainf**k: a graph of blocks of stencils
    (`examples/bf-stencils/src/lib.rs`). */
module BfTarget {
  import opened BfSource
  import opened Words
  import opened Locations
  import opened Managed

  datatype Stencil =
    | ADD1 | ADDN | SUB1 | SUBN
    | LEFT1 | LEFTN | RIGHT1 | RIGHTN
    | READ | PRINT
    | CHECK | IF_ZERO | JMP | RET
    | SET_0 | ADD_TO

  type Ins = Emitted<Stencil>

  /** A function compiled to blocks; its entry is block zero. */
  type Graph = seq<seq<Ins>>

  /** The addresses of the functions that the host passes in holes. */
  datatype Host = Host(reader: nat, printer: nat)

  /** The signed value of a hole. */
  function FromWord(w: nat): int {
    Signed(Wrap(w))
  }

  /** The registers of the parameters: the tape, its length and the pointer. */
  const PARAMS: seq<Location> := [Register(0), Register(1), Register(2)]
  const INDEX: seq<Location> := [Register(2)]

  datatype Target =
    | Running(block: nat, index: nat, s: State)
    | Returned(value: nat, s: State)
    | Stuck

  /** Stencils that compute and go on to the next stencil. */
  predicate IsData(stencil: Stencil) {
    stencil !in {CHECK, IF_ZERO, JMP, RET}
  }

  predicate Moves(stencil: Stencil) {
    stencil in {LEFT1, LEFTN, RIGHT1, RIGHTN}
  }

  function HoleCount(stencil: Stencil): nat {
    if stencil in {ADDN, SUBN, LEFTN, RIGHTN, READ, PRINT, ADD_TO, RET} then 1 else 0
  }

  function JumpCount(stencil: Stencil): nat {
    match stencil
    case RET => 0
    case CHECK => 2
    case IF_ZERO => 3
    case _ => 1
  }

  /** The operands are where the stencil expects them. */
  predicate OperandsOk(e: Ins, host: Host) {
    && e.inputs == (if Moves(e.stencil) then INDEX else if e.stencil in {JMP, RET} then [] else PARAMS)
    && e.outputs == (if Moves(e.stencil) then INDEX else [])
    && |e.holes| == HoleCount(e.stencil)
    && |e.jumps| == JumpCount(e.stencil)
    && (IsData(e.stencil) ==> e.jumps[0] == NextStencil)
    && (e.stencil == READ ==> e.holes[0] == host.reader)
    && (e.stencil == PRINT ==> e.holes[0] == host.printer)
  }

  function DataEffect(e: Ins, host: Host, s: State): State
    requires IsData(e.stencil) && OperandsOk(e, host)
  {
    match e.stencil
    case ADD1 => Store(s, s.ptr, Cell(s) + 1)
    case ADDN => Store(s, s.ptr, Cell(s) + e.holes[0] % 256)
    case SUB1 => Store(s, s.ptr, Cell(s) - 1)
    case SUBN => Store(s, s.ptr, Cell(s) - e.holes[0] % 256)
    case LEFT1 => Move(s, -1)
    case LEFTN => var n: int := e.holes[0]; Move(s, -n)
    case RIGHT1 => Move(s, 1)
    case RIGHTN => Move(s, e.holes[0])
    case READ => ReadByte(s)
    case PRINT => PrintByte(s)
    case SET_0 => Store(s, s.ptr, 0)
    case ADD_TO =>
      var cleared := Store(s, s.ptr, 0);
      var to := s.ptr + FromWord(e.holes[0]);
      Store(cleared, to, CellAt(cleared, to) + Cell(s))
  }

  /** The tape cells that a stencil touches. */
  function Touches(e: Ins, host: Host, len: nat, s: State): set<int>
    requires OperandsOk(e, host)
  {
    match e.stencil
    case ADD_TO => {s.ptr, s.ptr + FromWord(e.holes[0])}
    case IF_ZERO => if InTape(len, s) then {s.ptr} else {}
    case CHECK => {}
    case JMP => {}
    case RET => {}
    case _ => if Moves(e.stencil) then {} else {s.ptr}
  }

  function Goto(block: nat, index: nat, jump: JumpTarget, s: State): Target {
    match jump
    case NextStencil => Running(block, index + 1, s)
    case Target(b) => Running(b, 0, s)
  }

  function Execute(e: Ins, host: Host, len: nat, block: nat, index: nat, s: State): Target {
    if !OperandsOk(e, host) then Stuck
    else match e.stencil
      case CHECK => Goto(block, index, e.jumps[if InTape(len, s) then 0 else 1], s)
      case IF_ZERO => Goto(block, index, e.jumps[if !InTape(len, s) then 2 else if Cell(s) == 0 then 0 else 1], s)
      case JMP => Goto(block, index, e.jumps[0], s)
      case RET => Returned(e.holes[0], s)
      case _ => Goto(block, index, e.jumps[0], DataEffect(e, host, s))
  }

  predicate HasCode(graph: Graph, block: nat, index: nat) {
    block < |graph| && index < |graph[block]|
  }

  /** Jumps go to blocks that exist, and the last stencil of a block does not go on with a next one. */
  predicate JumpsOk(graph: Graph, block: nat, index: nat)
    requires HasCode(graph, block, index)
  {
    forall j :: 0 <= j < |graph[block][index].jumps| ==>
      match graph[block][index].jumps[j]
      case NextStencil => index + 1 < |graph[block]|
      case Target(b) => b < |graph|
  }

  ghost predicate Linkable(graph: Graph) {
    forall b: nat, i: nat :: HasCode(graph, b, i) ==> JumpsOk(graph, b, i)
  }

  function TargetStep(graph: Graph, host: Host, len: nat, t: Target): Target {
    if !t.Running? then t
    else if !HasCode(graph, t.block, t.index) then Stuck
    else Execute(graph[t.block][t.index], host, len, t.block, t.index, t.s)
  }

  /** The run of a graph from the state `s`, after `n` steps. */
  function TargetAt(graph: Graph, host: Host, len: nat, s: State, n: nat): Target {
    if n == 0 then Running(0, 0, s) else TargetStep(graph, host, len, TargetAt(graph, host, len, s, n - 1))
  }

  /** The run of a graph from `s` returns `value`, in state `t`. */
  ghost predicate Returns(graph: Graph, host: Host, len: nat, s: State, value: nat, t: State) {
    exists n: nat :: TargetAt(graph, host, len, s, n) == Returned(value, t)
  }

  lemma {:induction false} ReturnedStays(graph: Graph, host: Host, len: nat, s: State, m: nat, n: nat)
    requires m <= n && TargetAt(graph, host, len, s, m).Returned?
    ensures TargetAt(graph, host, len, s, n) == TargetAt(graph, host, len, s, m)
    decreases n
  {
    if m < n {
      ReturnedStays(graph, host, len, s, m, n - 1);
    }
  }

  /** A run returns at most one value, in one state. */
  lemma ReturnsOnce(graph: Graph, host: Host, len: nat, s: State, v: nat, t: State, w: nat, u: State)
    requires Returns(graph, host, len, s, v, t) && Returns(graph, host, len, s, w, u)
    ensures v == w && t == u
  {
    var m: nat :| TargetAt(graph, host, len, s, m) == Returned(v, t);
    var n: nat :| TargetAt(graph, host, len, s, n) == Returned(w, u);
    ReturnedStays(graph, host, len, s, if m <= n then m else n, if m <= n then n else m);
  }
}
