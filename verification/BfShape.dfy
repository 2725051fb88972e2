/** The shape of parsed trees, on which the bounds on memory accesses rely. */
module BfShape {
  import opened BfSource
  import opened BfParser
  import opened Wrappers

  /** Counts are at most `max`, and a transfer, which is below 1024 cells, only ends a leaf. */
  ghost predicate LeafShape(ops: seq<Op>, max: nat) {
    forall i :: 0 <= i < |ops| ==>
      match ops[i]
      case IncDec(n) => Abs(n) <= max
      case LeftRight(n) => Abs(n) <= max
      case AddTo(n) => i == |ops| - 1 && n != 0 && Abs(n) < 1024
      case _ => true
  }

  predicate Transfers(ops: seq<Op>) {
    ops != [] && ops[|ops| - 1].AddTo?
  }

  /** No two leaves stand next to each other, and no node stands directly in a node. */
  ghost predicate Shaped(bf: BF, max: nat) {
    match bf
    case Leaf(ops) => LeafShape(ops, max)
    case Loop(body) => !body.Loop? && Shaped(body, max)
    case Node(nodes) => NodesShaped(nodes, max)
  }

  ghost predicate NodesShaped(nodes: seq<BF>, max: nat) {
    && (forall i :: 0 <= i < |nodes| ==> !nodes[i].Node? && Shaped(nodes[i], max))
    && (forall i :: 0 <= i < |nodes| - 1 ==> !(nodes[i].Leaf? && nodes[i + 1].Leaf?))
  }

  /** The last leaf of a level ends with a transfer. */
  predicate EndsInTransfer(nodes: seq<BF>) {
    nodes != [] && nodes[|nodes| - 1].Leaf? && Transfers(nodes[|nodes| - 1].ops)
  }

  /** Merged counts never exceed the length of the text they count. */
  lemma {:induction false} LeafOpsShape(text: string, max: nat)
    requires |text| <= max
    ensures LeafShape(LeafOps(text), |text|) && LeafShape(LeafOps(text), max) && !Transfers(LeafOps(text))
  {
    if text != "" {
      var before := text[..|text| - 1];
      LeafOpsShape(before, |before|);
      var ops := LeafOps(before);
      assert LeafShape(ops, |text|);
      var c := text[|text| - 1];
      assert LeafOps(text) == AddChar(ops, c);
      AddCharShape(ops, c, |before|);
    }
  }

  lemma AddCharShape(ops: seq<Op>, c: char, n: nat)
    requires LeafShape(ops, n) && !Transfers(ops)
    ensures LeafShape(AddChar(ops, c), n + 1) && !Transfers(AddChar(ops, c))
  {
  }

  lemma ConcatShape(ops: seq<Op>, added: seq<Op>, max: nat)
    requires LeafShape(ops, max) && LeafShape(added, max) && !Transfers(ops)
    ensures LeafShape(ops + added, max)
  {
  }

  lemma AddNodeShape(nodes: seq<BF>, node: BF, max: nat)
    requires NodesShaped(nodes, max) && Shaped(node, max) && !node.Node? && !EndsInTransfer(nodes)
    ensures NodesShaped(AddNode(nodes, node), max) && AddNode(nodes, node) != []
    ensures EndsInTransfer(AddNode(nodes, node)) ==> node.Leaf? && Transfers(node.ops)
  {
    if nodes != [] && nodes[|nodes| - 1].Leaf? && node.Leaf? {
      ConcatShape(nodes[|nodes| - 1].ops, node.ops, max);
    }
  }

  lemma {:induction false} InnerShape(code: string, max: nat)
    requires |code| <= max
    ensures !Inner(code).0.Loop? && Shaped(Inner(code).0, max)
    ensures Inner(code).0.Leaf? ==> Inner(code).1 == "" && !Transfers(Inner(code).0.ops)
    decreases |code|, 2
  {
    var end := LeafEnd(code);
    LeafOpsShape(code[..end], max);
    if end < |code| {
      NodesShape([Leaf(LeafOps(code[..end]))], code[end..], max);
    }
  }

  /** A transfer is only recognised at the end of the file. */
  lemma {:induction false} NextShape(code: string, max: nat)
    requires |code| <= max && code != "" && code[0] != ']'
    ensures !Next(code).0.Node? && Shaped(Next(code).0, max)
    ensures Next(code).0.Leaf? && Transfers(Next(code).0.ops) ==> Next(code).1 == ""
    decreases |code|, 0
  {
    if code[0] != '[' {
      LeafOpsShape(code[..LeafEnd(code)], max);
    } else if !("[-]" <= code) {
      InnerShape(code[1..], max);
    }
  }

  lemma {:induction false} NodesShape(nodes: seq<BF>, code: string, max: nat)
    requires |code| <= max && NodesShaped(nodes, max) && nodes != []
    requires EndsInTransfer(nodes) ==> code == ""
    ensures NodesShaped(Nodes(nodes, code).0, max) && Nodes(nodes, code).0 != []
    decreases |code|, 1
  {
    if code != "" && code[0] != ']' {
      var (node, rest) := Next(code);
      NextShape(code, max);
      AddNodeShape(nodes, node, max);
      NodesShape(AddNode(nodes, node), rest, max);
    }
  }

  lemma ParsedShape(code: string)
    ensures Shaped(Parsed(code), |code|)
  {
    InnerShape(code, |code|);
  }

  // ----- which loops are recognised as transfers -----

  lemma InnerLeaf(code: string)
    ensures Inner(code).0.Leaf? <==> LeafEnd(code) == |code|
    ensures Inner(code).0.Leaf? ==> Inner(code) == (Leaf(LeafOps(code)), "")
  {
    hide LeafOps, Nodes;
    assert code[..|code|] == code;
  }

  lemma StartsZeroLoop(code: string)
    requires "[-]" <= code
    ensures code[1..][0] == '-' && code[1..][1] == ']' && LeafEnd(code[1..]) < |code| - 1
  {
    hide LeafOps;
    var rest := code[1..];
    assert code[2] == ']' && rest[1] == code[2];
    assert LeafEnd(rest) > 1 ==> !IsBracket(rest[1]);
  }

  /** A loop becomes an `AddTo` exactly when no bracket follows its `[` at all, and the rest of the
      file is a transfer: the end of the file closes it. */
  lemma TransferRecognised(code: string, l: int)
    requires code != "" && code[0] == '['
    ensures Next(code).0 == Leaf([AddTo(l)]) <==>
      && LeafEnd(code[1..]) == |code| - 1 && l != 0 && Abs(l) < 1024
      && LeafOps(code[1..]) == [IncDec(-1), LeftRight(l), IncDec(1), LeftRight(-l)]
  {
    hide Inner, Nodes, LeafOps, LeafEnd, IsAddTo, Next;
    var rest := code[1..];
    if "[-]" <= code {
      StartsZeroLoop(code);
      ZeroLoopNode(code);
    } else {
      LoopNode(code);
      InnerLeaf(rest);
      IsAddToExactly(Loop(Inner(rest).0), l);
    }
  }

  lemma ZeroLoopNode(code: string)
    requires "[-]" <= code
    ensures Next(code).0 == Leaf([SetZero]) && Next(code).0.ops[0] == SetZero
  {
    hide Inner, Nodes, LeafOps, LeafEnd;
  }

  lemma LoopNode(code: string)
    requires code != "" && code[0] == '[' && !("[-]" <= code)
    ensures var offset := IsAddTo(Loop(Inner(code[1..]).0));
      Next(code).0 == if offset.Some? then Leaf([AddTo(offset.value)]) else Loop(Inner(code[1..]).0)
  {
    hide Inner, Nodes, LeafOps, LeafEnd, IsAddTo;
  }

  lemma IsAddToExactly(bf: BF, l: int)
    ensures IsAddTo(bf) == Some(l) <==>
      bf == Loop(Leaf([IncDec(-1), LeftRight(l), IncDec(1), LeftRight(-l)])) && l != 0 && Abs(l) < 1024
  {
  }

  /** So the loop that the comment on `AddTo` shows is not recognised: its closing bracket makes
      its body a node. */
  lemma ClosedTransferIsALoop(body: string)
    requires forall i :: 0 <= i < |body| ==> !IsBracket(body[i])
    requires body != "-"
    ensures Next("[" + body + "]") == (Loop(Node([Leaf(LeafOps(body))])), "")
  {
    hide Inner, Nodes, LeafOps, LeafEnd, Next, IsAddTo, IsBracket;
    InnerOfClosed(body);
    NotZeroLoop(body);
    BracketsAround(body);
    ClosedNode("[" + body + "]", LeafOps(body));
  }

  lemma BracketsAround(body: string)
    ensures var code := "[" + body + "]"; code != "" && code[0] == '[' && code[1..] == body + "]"
  {
    assert ("[" + body + "]")[1..] == body + "]";
  }

  lemma ClosedNode(code: string, ops: seq<Op>)
    requires code != "" && code[0] == '[' && !("[-]" <= code) && Inner(code[1..]) == (Node([Leaf(ops)]), "]")
    ensures Next(code) == (Loop(Node([Leaf(ops)])), "")
  {
    hide Inner, Nodes, LeafOps, LeafEnd;
  }

  lemma NotZeroLoop(body: string)
    requires forall i :: 0 <= i < |body| ==> !IsBracket(body[i])
    requires body != "-"
    ensures !("[-]" <= "[" + body + "]")
  {
    var code := "[" + body + "]";
    if |body| > 1 {
      assert code[2] == body[1];
    } else if |body| == 1 {
      assert code[1] == body[0];
      assert body == [body[0]];
    }
  }

  lemma InnerOfClosed(body: string)
    requires forall i :: 0 <= i < |body| ==> !IsBracket(body[i])
    ensures Inner(body + "]") == (Node([Leaf(LeafOps(body))]), "]")
  {
    var rest := body + "]";
    LeafEndIs(rest, |body|);
    assert rest[..|body|] == body;
    assert rest[|body|..] == "]";
  }

  lemma {:induction false} LeafEndIs(code: string, n: nat)
    requires n < |code| && IsBracket(code[n]) && forall i :: 0 <= i < n ==> !IsBracket(code[i])
    ensures LeafEnd(code) == n
    decreases n
  {
    if n > 0 {
      assert !IsBracket(code[0]);
      LeafEndIs(code[1..], n - 1);
    }
  }

  // ----- run lengths -----

  /** Two operations that count the same thing. */
  predicate Alike(a: Op, b: Op) {
    (a.IncDec? && b.IncDec?) || (a.LeftRight? && b.LeftRight?)
  }

  /** No two neighbours could be one operation. */
  ghost predicate Merged(ops: seq<Op>) {
    forall i :: 0 <= i < |ops| - 1 ==> !Alike(ops[i], ops[i + 1])
  }

  ghost predicate TreeMerged(bf: BF) {
    match bf
    case Leaf(ops) => Merged(ops)
    case Loop(body) => TreeMerged(body)
    case Node(nodes) => NodesMerged(nodes)
  }

  ghost predicate NodesMerged(nodes: seq<BF>) {
    forall i :: 0 <= i < |nodes| ==> TreeMerged(nodes[i])
  }

  lemma {:induction false} LeafOpsMerged(text: string)
    ensures Merged(LeafOps(text))
  {
    if text != "" {
      LeafOpsMerged(text[..|text| - 1]);
    }
  }

  /** What the next leaf may be appended to: the text goes on with a bracket, or the last leaf, if there is one, ends
      with a clearing. */
  predicate LeafCanFollow(nodes: seq<BF>, code: string) {
    code == "" || IsBracket(code[0]) || nodes == [] || !nodes[|nodes| - 1].Leaf?
    || (var ops := nodes[|nodes| - 1].ops; ops != [] && ops[|ops| - 1] == SetZero)
  }

  lemma ConcatMerged(ops: seq<Op>, added: seq<Op>)
    requires Merged(ops) && Merged(added)
    requires ops != [] && added != [] ==> !Alike(ops[|ops| - 1], added[0])
    ensures Merged(ops + added)
  {
  }

  lemma AddNodeMerged(nodes: seq<BF>, code: string)
    requires code != "" && code[0] != ']'
    requires NodesMerged(nodes) && TreeMerged(Next(code).0) && LeafCanFollow(nodes, code)
    ensures NodesMerged(AddNode(nodes, Next(code).0)) && LeafCanFollow(AddNode(nodes, Next(code).0), Next(code).1)
  {
    hide LeafOps, Inner;
    var (node, rest) := Next(code);
    if node.Leaf? {
      assert code[0] == '[' ==> |node.ops| == 1 && (node.ops[0] == SetZero || (node.ops[0].AddTo? && rest == "")) by {
        if code[0] == '[' && !("[-]" <= code) {
          LoopNode(code);
          InnerLeaf(code[1..]);
        }
      }
      if nodes != [] && nodes[|nodes| - 1].Leaf? {
        ConcatMerged(nodes[|nodes| - 1].ops, node.ops);
      }
    }
  }

  lemma {:induction false} InnerMerged(code: string)
    ensures TreeMerged(Inner(code).0)
    decreases |code|, 2
  {
    var end := LeafEnd(code);
    LeafOpsMerged(code[..end]);
    if end < |code| {
      NodesParsedMerged([Leaf(LeafOps(code[..end]))], code[end..]);
    }
  }

  lemma {:induction false} NextMerged(code: string)
    requires code != "" && code[0] != ']'
    ensures TreeMerged(Next(code).0)
    decreases |code|, 0
  {
    if code[0] != '[' {
      LeafOpsMerged(code[..LeafEnd(code)]);
    } else if !("[-]" <= code) {
      InnerMerged(code[1..]);
    }
  }

  lemma {:induction false} NodesParsedMerged(nodes: seq<BF>, code: string)
    requires NodesMerged(nodes) && LeafCanFollow(nodes, code)
    ensures NodesMerged(Nodes(nodes, code).0)
    decreases |code|, 1
  {
    if code != "" && code[0] != ']' {
      NextMerged(code);
      AddNodeMerged(nodes, code);
      NodesParsedMerged(AddNode(nodes, Next(code).0), Next(code).1);
    }
  }

  /** In no leaf of a parsed tree are there two counts of the same thing in a row. */
  lemma ParsedMerged(code: string)
    ensures TreeMerged(Parsed(code))
  {
    InnerMerged(code);
  }

  /** A loop becomes a clearing exactly if it is written without anything else in it. */
  lemma ZeroLoopRecognised(code: string)
    requires code != "" && code[0] == '['
    ensures Next(code).0 == Leaf([SetZero]) <==> "[-]" <= code
  {
    hide Inner, Nodes, LeafOps, LeafEnd, IsAddTo, Next;
    if "[-]" <= code {
      ZeroLoopNode(code);
    } else {
      LoopNode(code);
    }
  }
}
