/** The parser of the brainf**k compiler (`BF::parse`): trees, the functions that
    specify it, and the methods that build the trees in loops. */
module BfParser {
  import opened BfSource
  import opened Wrappers

  datatype Op =
    | IncDec(n: int)
    | LeftRight(n: int)
    | In
    | Out
    | SetZero
    | AddTo(n: int)

  datatype BF =
    | Leaf(ops: seq<Op>)
    | Node(nodes: seq<BF>)
    | Loop(body: BF)

  function Abs(n: int): nat {
    if n < 0 then -n else n
  }

  // ----- specification -----

  /** Appends `op`, merging it into the last operation when both count the same thing. */
  function TryMerge(ops: seq<Op>, op: Op): seq<Op> {
    if ops == [] then [op]
    else match (ops[|ops| - 1], op)
      case (IncDec(a), IncDec(b)) => ops[|ops| - 1 := IncDec(a + b)]
      case (LeftRight(a), LeftRight(b)) => ops[|ops| - 1 := LeftRight(a + b)]
      case _ => ops + [op]
  }

  function AddChar(ops: seq<Op>, c: char): seq<Op> {
    match c
    case '+' => TryMerge(ops, IncDec(1))
    case '-' => TryMerge(ops, IncDec(-1))
    case '<' => TryMerge(ops, LeftRight(-1))
    case '>' => TryMerge(ops, LeftRight(1))
    case '.' => TryMerge(ops, Out)
    case ',' => TryMerge(ops, In)
    case _ => ops
  }

  /** The first position of a bracket, or the length of the text. */
  function LeafEnd(code: string): (r: nat)
    ensures r <= |code|
    ensures forall i :: 0 <= i < r ==> !IsBracket(code[i])
    ensures r < |code| ==> IsBracket(code[r])
  {
    if code == "" || IsBracket(code[0]) then 0 else 1 + LeafEnd(code[1..])
  }

  function LeafOps(text: string): seq<Op> {
    if text == "" then [] else AddChar(LeafOps(text[..|text| - 1]), text[|text| - 1])
  }

  /** The offset `l` of a loop recognised as a transfer: its body is one leaf, exactly a
      decrement, a move by `l`, an increment and a move back. */
  function IsAddTo(bf: BF): (r: Option<int>)
    ensures r.Some? ==>
      && bf == Loop(Leaf([IncDec(-1), LeftRight(r.value), IncDec(1), LeftRight(-r.value)]))
      && r.value != 0 && Abs(r.value) < 1024
  {
    if bf.Loop? && bf.body.Leaf? && |bf.body.ops| == 4 then
      var ops := bf.body.ops;
      if ops[0] == IncDec(-1) && ops[1].LeftRight? && ops[2] == IncDec(1) && ops[3].LeftRight?
         && ops[1].n != 0 && ops[1].n == -ops[3].n && Abs(ops[1].n) < 1024
      then Some(ops[1].n) else None
    else None
  }

  /** Appends a node, extending the last leaf when both are leaves. */
  function AddNode(nodes: seq<BF>, node: BF): seq<BF> {
    if nodes != [] && nodes[|nodes| - 1].Leaf? && node.Leaf? then
      nodes[|nodes| - 1 := Leaf(nodes[|nodes| - 1].ops + node.ops)]
    else nodes + [node]
  }

  function Inner(code: string): (r: (BF, string))
    ensures |r.1| <= |code|
    decreases |code|, 2
  {
    var end := LeafEnd(code);
    var first := LeafOps(code[..end]);
    if end == |code| then (Leaf(first), "") else
      var (nodes, rest) := Nodes([Leaf(first)], code[end..]);
      (Node(nodes), rest)
  }

  /** The node that the text starts with, when it does not start with `]`. */
  function Next(code: string): (r: (BF, string))
    requires code != "" && code[0] != ']'
    ensures |r.1| < |code|
    decreases |code|, 0
  {
    if code[0] == '[' then
      if "[-]" <= code then (Leaf([SetZero]), code[3..])
      else
        var (body, rest) := Inner(code[1..]);
        var node := Loop(body);
        var rest := if rest == "" then rest else rest[1..];
        var offset := IsAddTo(node);
        (if offset.Some? then Leaf([AddTo(offset.value)]) else node, rest)
    else
      var end := LeafEnd(code);
      (Leaf(LeafOps(code[..end])), code[end..])
  }

  function Nodes(nodes: seq<BF>, code: string): (r: (seq<BF>, string))
    ensures |r.1| <= |code|
    decreases |code|, 1
  {
    if code == "" || code[0] == ']' then (nodes, code) else
      var (node, rest) := Next(code);
      Nodes(AddNode(nodes, node), rest)
  }

  function Parsed(code: string): BF {
    Inner(code).0
  }

  // ----- the parser -----

  method ParseLeaf(code: string) returns (ops: seq<Op>, rest: string)
    ensures ops == LeafOps(code[..LeafEnd(code)])
    ensures rest == code[LeafEnd(code)..]
  {
    var end := 0;
    while end < |code| && !IsBracket(code[end])
      invariant end <= LeafEnd(code)
      invariant LeafEnd(code) == end + LeafEnd(code[end..])
    {
      assert code[end..][1..] == code[end + 1..];
      end := end + 1;
    }
    ops := [];
    for i := 0 to end
      invariant ops == LeafOps(code[..i])
    {
      assert code[..i + 1][..i] == code[..i];
      match code[i]
      case '+' => ops := PushMerged(ops, IncDec(1));
      case '-' => ops := PushMerged(ops, IncDec(-1));
      case '<' => ops := PushMerged(ops, LeftRight(-1));
      case '>' => ops := PushMerged(ops, LeftRight(1));
      case '.' => ops := PushMerged(ops, Out);
      case ',' => ops := PushMerged(ops, In);
      case _ =>
    }
    rest := code[end..];
  }

  /** `try_merge`: rewrites the last operation, or pushes a new one. */
  method PushMerged(ops: seq<Op>, op: Op) returns (r: seq<Op>)
    ensures r == TryMerge(ops, op)
  {
    r := ops;
    if |r| > 0 {
      match (r[|r| - 1], op)
      case (IncDec(a), IncDec(b)) => r := r[|r| - 1 := IncDec(a + b)];
      case (LeftRight(a), LeftRight(b)) => r := r[|r| - 1 := LeftRight(a + b)];
      case _ => r := r + [op];
    } else {
      r := r + [op];
    }
  }

  method ParseLoop(code: string) returns (bf: BF, rest: string)
    requires code != "" && code[0] == '['
    ensures bf == Loop(Inner(code[1..]).0)
    ensures var r := Inner(code[1..]).1; rest == if r == "" then r else r[1..]
    ensures |rest| < |code|
    decreases |code|, 0
  {
    var node, after := ParseInner(code[1..]);
    rest := if after == "" then after else after[1..];
    bf := Loop(node);
  }

  method ParseInner(code: string) returns (bf: BF, rest: string)
    ensures (bf, rest) == Inner(code)
    decreases |code|, 1
  {
    var first, text := ParseLeaf(code);
    if text == "" {
      return Leaf(first), text;
    }
    var nodes := [Leaf(first)];
    while text != "" && text[0] != ']'
      invariant |text| <= |code|
      invariant Inner(code) == (Node(Nodes(nodes, text).0), Nodes(nodes, text).1)
      decreases |text|
    {
      var node;
      ghost var was := text;
      if text[0] == '[' {
        if "[-]" <= text {
          text := text[3..];
          node := Leaf([SetZero]);
        } else {
          node, text := ParseLoop(text);
          var offset := IsAddTo(node);
          if offset.Some? {
            node := Leaf([AddTo(offset.value)]);
          }
        }
      } else {
        var leaf;
        leaf, text := ParseLeaf(text);
        node := Leaf(leaf);
      }
      assert (node, text) == Next(was);
      if nodes != [] && nodes[|nodes| - 1].Leaf? && node.Leaf? {
        nodes := nodes[|nodes| - 1 := Leaf(nodes[|nodes| - 1].ops + node.ops)];
      } else {
        nodes := nodes + [node];
      }
    }
    return Node(nodes), text;
  }

  method Parse(code: string) returns (bf: BF)
    ensures bf == Parsed(code)
  {
    var rest;
    bf, rest := ParseInner(code);
  }
}
