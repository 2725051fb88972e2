/** What the stencils of compiled brainf**k count, and where the pointer is checked
    (`compile` in `examples/bf/src/main.rs`). */
module BfCounts {
  import opened Words
  import opened BfParser
  import opened BfShape
  import opened BfTarget
  import opened BfCodegen

  predicate Counts(stencil: Stencil) {
    stencil in {ADDN, SUBN, LEFTN, RIGHTN}
  }

  /** Counts are at least two, as there are stencils of their own for one, and at most `max`. */
  predicate CountOk(e: Ins, max: nat) {
    Counts(e.stencil) ==> |e.holes| == 1 && 2 <= e.holes[0] <= max
  }

  ghost predicate CodeCounts(code: seq<Ins>, max: nat) {
    forall i :: 0 <= i < |code| ==> CountOk(code[i], max)
  }

  ghost predicate GraphCounts(graph: Graph, max: nat) {
    forall b: nat :: b < |graph| ==> CodeCounts(graph[b], max)
  }

  lemma OpCounts(op: Op, host: Host, max: nat)
    requires op.IncDec? || op.LeftRight? ==> Abs(op.n) <= max
    ensures CodeCounts(OpCode(op, host), max)
  {
  }

  lemma {:induction false} LeafCounts(ops: seq<Op>, host: Host, panic: nat, max: nat)
    requires LeafShape(ops, max)
    ensures CodeCounts(LeafCode(ops, host, panic).0, max)
  {
    hide OpCode;
    if ops != [] {
      var (init, op) := (ops[..|ops| - 1], ops[|ops| - 1]);
      LeafCounts(init, host, panic, max);
      OpCounts(op, host, max);
      assert init + [op] == ops;
      LeafCodeStep(init, op, host, panic);
    } else {
      LeafCodeNone(host, panic);
    }
  }

  ghost predicate EventsShaped(evs: seq<VisitOp>, max: nat) {
    forall k :: 0 <= k < |evs| && evs[k].LeafOps? ==> LeafShape(evs[k].ops, max)
  }

  lemma {:induction false} VisitShaped(bf: BF, max: nat)
    requires Shaped(bf, max)
    ensures EventsShaped(Visit(bf), max)
    decreases bf
  {
    hide LeafShape;
    match bf
    case Leaf(_) =>
    case Loop(body) => VisitShaped(body, max);
    case Node(nodes) => VisitAllShaped(nodes, max);
  }

  lemma {:induction false} VisitAllShaped(nodes: seq<BF>, max: nat)
    requires NodesShaped(nodes, max)
    ensures EventsShaped(VisitAll(nodes), max)
    decreases nodes
  {
    hide LeafShape;
    if nodes != [] {
      VisitAllShaped(nodes[..|nodes| - 1], max);
      VisitShaped(nodes[|nodes| - 1], max);
    }
  }

  lemma AppendCounts(graph: Graph, block: nat, added: seq<Ins>, max: nat)
    requires block < |graph| && GraphCounts(graph, max) && CodeCounts(added, max)
    ensures GraphCounts(Append(graph, block, added), max)
  {
  }

  lemma EventCounts(g: Gen, ev: VisitOp, host: Host, panic: nat, max: nat)
    requires Ready(g, ev, panic) && GraphCounts(g.code, max) && (ev.LeafOps? ==> LeafShape(ev.ops, max))
    ensures GraphCounts(GenEvent(g, ev, host, panic).code, max)
  {
    hide Append, CodeCounts, LeafShape, LeafCode, GraphCounts;
    match ev
    case LeafOps(ops) =>
      LeafCounts(ops, host, panic, max);
      AppendCounts(g.code, g.cur, LeafCode(ops, host, panic).0, max);
    case IntoLoop =>
      ControlCounts(panic, g.lo, g.hi - 1, max);
      AppendCounts(g.code, g.cur, [JmpIns(g.lo)], max);
      AppendCounts(Append(g.code, g.cur, [JmpIns(g.lo)]), g.lo, [EnterIns(g.hi - 1, panic)], max);
    case OutOfLoop =>
      var (start, tail) := g.stack[|g.stack| - 1];
      ControlCounts(panic, start, tail, max);
      AppendCounts(g.code, g.cur, [LeaveIns(start, tail, panic)], max);
  }

  lemma ControlCounts(panic: nat, start: nat, tail: nat, max: nat)
    ensures CodeCounts([JmpIns(start)], max) && CodeCounts([EnterIns(tail, panic)], max)
    ensures CodeCounts([LeaveIns(start, tail, panic)], max) && CodeCounts([CheckIns(panic), RetIns(0)], max)
    ensures forall value: nat :: CodeCounts([RetIns(value)], max)
  {
  }

  lemma {:induction false} AllCounts(g: Gen, evs: seq<VisitOp>, host: Host, panic: nat, max: nat)
    requires AllReady(g, evs, host, panic) && GraphCounts(g.code, max) && EventsShaped(evs, max)
    ensures GraphCounts(GenAll(g, evs, host, panic).code, max)
    decreases |evs|
  {
    hide Ready, GenEvent, GraphCounts, LeafShape;
    if evs != [] {
      var n := |evs| - 1;
      AllCounts(g, evs[..n], host, panic, max);
      EventCounts(GenAll(g, evs[..n], host, panic), evs[n], host, panic, max);
    }
  }

  /** Every count in the code of a source is between two and the length of the source. */
  lemma GeneratedCounts(source: string, host: Host)
    ensures GraphCounts(Generated(Parsed(source), host), |source|)
  {
    hide Parsed, CodeCounts, AllReady, GenAll, Append, Visit, Loops, LeafShape;
    var bf := Parsed(source);
    var (start, panic, max) := (GenStart(Loops(bf)), PanicBlock(Loops(bf)), |source|);
    ParsedShape(source);
    VisitShaped(bf, max);
    VisitReady(bf, start, host, panic);
    NothingCounts(Loops(bf), max);
    AllCounts(start, Visit(bf), host, panic, max);
    var g := GenAll(start, Visit(bf), host, panic);
    ControlCounts(panic, 0, 0, max);
    AppendCounts(g.code, g.cur, [CheckIns(panic), RetIns(0)], max);
    AppendCounts(Append(g.code, g.cur, [CheckIns(panic), RetIns(0)]), panic, [RetIns(Wrap(-1))], max);
  }

  lemma NothingCounts(loops: nat, max: nat)
    ensures GraphCounts(GenStart(loops).code, max)
  {
  }

  // ----- where the pointer is checked -----

  /** How far a stencil takes the pointer or a store away from where the pointer was. */
  function Reach(e: Ins): int {
    if e.stencil == LEFT1 then -1
    else if e.stencil == RIGHT1 then 1
    else if e.holes == [] then 0
    else match e.stencil
      case LEFTN => var n: int := e.holes[0]; -n
      case RIGHTN => e.holes[0]
      case ADD_TO => FromWord(e.holes[0])
      case _ => 0
  }

  /** How far that is in all since the last check. */
  function Distance(code: seq<Ins>): int {
    if code == [] || code[|code| - 1].stencil == CHECK then 0
    else Distance(code[..|code| - 1]) + Reach(code[|code| - 1])
  }

  /** There is a check exactly where the distance has become larger than 1024. */
  ghost predicate ChecksRight(code: seq<Ins>) {
    && (forall k :: 0 <= k < |code| ==> (code[k].stencil == CHECK <==> Abs(Distance(code[..k])) > 1024))
    && Abs(Distance(code)) <= 1024
  }

  lemma DistanceNext(code: seq<Ins>, e: Ins)
    ensures Distance(code + [e]) == if e.stencil == CHECK then 0 else Distance(code) + Reach(e)
  {
    var all := code + [e];
    assert all[..|all| - 1] == code;
  }

  lemma OpReach(op: Op, host: Host)
    requires op.AddTo? ==> Abs(op.n) < 1024
    ensures |OpCode(op, host)| <= 1
    ensures OpCode(op, host) == [] ==> Movement(op) == 0
    ensures OpCode(op, host) != [] ==>
      OpCode(op, host)[0].stencil != CHECK && Reach(OpCode(op, host)[0]) == Movement(op)
  {
  }

  lemma ChecksMore(code: seq<Ins>, e: Ins)
    requires forall k :: 0 <= k < |code| ==> (code[k].stencil == CHECK <==> Abs(Distance(code[..k])) > 1024)
    requires e.stencil == CHECK <==> Abs(Distance(code)) > 1024
    ensures var all := code + [e];
      forall k :: 0 <= k < |all| ==> (all[k].stencil == CHECK <==> Abs(Distance(all[..k])) > 1024)
  {
    hide Distance;
    var all := code + [e];
    forall k | 0 <= k < |all| ensures all[k].stencil == CHECK <==> Abs(Distance(all[..k])) > 1024 {
      assert all[..k] == code[..k];
      assert code[..|code|] == code;
    }
  }

  /** In the code of a leaf, the pointer is checked exactly when it has been moved by more than 1024 cells since the
      last check, whatever the leaf does. */
  lemma {:induction false} LeafChecks(ops: seq<Op>, host: Host, panic: nat, max: nat)
    requires LeafShape(ops, max)
    ensures ChecksRight(LeafCode(ops, host, panic).0)
    ensures LeafCode(ops, host, panic).1 == Distance(LeafCode(ops, host, panic).0)
  {
    hide OpCode, Movement, Reach, Distance;
    if ops == [] {
      LeafCodeNone(host, panic);
      NoDistance();
    } else {
      var (init, op) := (ops[..|ops| - 1], ops[|ops| - 1]);
      LeafChecks(init, host, panic, max);
      assert init + [op] == ops;
      LeafCodeStep(init, op, host, panic);
      OpReach(op, host);
      OpChecks(LeafCode(init, host, panic).0, op, host, panic);
    }
  }

  lemma NoDistance()
    ensures Distance([]) == 0
  {
  }

  lemma OpChecks(code: seq<Ins>, op: Op, host: Host, panic: nat)
    requires ChecksRight(code) && (op.AddTo? ==> Abs(op.n) < 1024)
    ensures var all := code + StepCode(Distance(code), op, host, panic);
      && ChecksRight(all)
      && Distance(all) == if Abs(Distance(code) + Movement(op)) > 1024 then 0 else Distance(code) + Movement(op)
  {
    hide OpCode, Movement, Reach, Distance;
    OpReach(op, host);
    var step := OpCode(op, host);
    if step == [] {
      assert code + StepCode(Distance(code), op, host, panic) == code;
    } else {
      var (e, check) := (step[0], CheckIns(panic));
      ChecksMore(code, e);
      DistanceNext(code, e);
      var moved := code + [e];
      if Abs(Distance(moved)) > 1024 {
        ChecksMore(moved, check);
        DistanceNext(moved, check);
        assert code + StepCode(Distance(code), op, host, panic) == moved + [check];
      } else {
        assert code + StepCode(Distance(code), op, host, panic) == moved;
      }
    }
  }
}
