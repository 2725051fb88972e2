/** The parser preserves meaning: its tree represents the source text, position by position. */
module BfMeaning {
  import opened BfSource
  import opened BfParser
  import opened Wrappers

  /** What one operation of the tree does to the state. */
  function Effect(op: Op, s: State): State {
    match op
    case IncDec(n) => Store(s, s.ptr, Cell(s) + n)
    case LeftRight(n) => Move(s, n)
    case In => ReadByte(s)
    case Out => PrintByte(s)
    case SetZero => Store(s, s.ptr, 0)
    case AddTo(n) =>
      var cleared := Store(s, s.ptr, 0);
      Store(cleared, s.ptr + n, CellAt(cleared, s.ptr + n) + Cell(s))
  }

  /** From every state, the source goes from position `a` to position `b` with the effect of `op`. */
  ghost predicate Performs(text: string, a: nat, b: nat, op: Op) {
    forall s: State :: Advances(text, a, s, b, Effect(op, s))
  }

  /** From every state, the source goes from `a` to `b` and leaves the state alone. */
  ghost predicate Silent(text: string, a: nat, b: nat) {
    forall s: State :: Reaches(text, a, s, b, s)
  }

  /** `marks` cuts `text[a..b]` into one stretch for each operation and a silent rest. */
  ghost predicate LeafMarks(text: string, a: nat, b: nat, ops: seq<Op>, marks: seq<nat>) {
    && |marks| == |ops| + 1
    && marks[0] == a
    && Silent(text, marks[|ops|], b)
    && forall i :: 0 <= i < |ops| ==> Performs(text, marks[i], marks[i + 1], ops[i])
  }

  /** `text[a..b]` is a loop: its brackets match each other. */
  ghost predicate IsLoop(text: string, a: nat, b: nat) {
    && a + 1 < b <= |text|
    && text[a] == '[' && text[b - 1] == ']'
    && FindClose(text, a + 1, 0) == b - 1
    && FindOpen(text, b - 1, 0) == a
  }

  ghost predicate Represents(bf: BF, text: string, a: nat, b: nat) {
    match bf
    case Leaf(ops) => exists marks :: LeafMarks(text, a, b, ops, marks)
    case Node(nodes) => RepresentAll(nodes, text, a, b)
    case Loop(body) =>
      IsLoop(text, a, b) && Represents(body, text, a + 1, b - 1)
  }

  ghost predicate RepresentAll(nodes: seq<BF>, text: string, a: nat, b: nat) {
    if nodes == [] then a == b
    else
      var first, last := nodes[..|nodes| - 1], nodes[|nodes| - 1];
      exists m: nat :: RepresentAll(first, text, a, m) && Represents(last, text, m, b)
  }

  // ----- operations and positions -----

  lemma SilentTrans(text: string, a: nat, b: nat, c: nat)
    requires Silent(text, a, b) && Silent(text, b, c)
    ensures Silent(text, a, c)
  {
    forall s: State ensures Reaches(text, a, s, c, s) {
      ReachesTrans(text, a, s, b, s, c, s);
    }
  }

  lemma SilentSelf(text: string, a: nat)
    ensures Silent(text, a, a)
  {
    forall s: State ensures Reaches(text, a, s, a, s) {
      ReachesSelf(text, a, s);
    }
  }

  lemma SilentPerforms(text: string, a: nat, b: nat, c: nat, op: Op)
    requires Silent(text, a, b) && Performs(text, b, c, op)
    ensures Performs(text, a, c, op)
  {
    forall s: State ensures Advances(text, a, s, c, Effect(op, s)) {
      AdvancesReaches(text, b, s, c, Effect(op, s));
      ReachesTrans(text, a, s, b, s, c, Effect(op, s));
    }
  }

  lemma PerformsSilent(text: string, a: nat, b: nat, c: nat, op: Op)
    requires Performs(text, a, b, op) && Silent(text, b, c)
    ensures Performs(text, a, c, op)
  {
    forall s: State ensures Advances(text, a, s, c, Effect(op, s)) {
      AdvancesReaches(text, a, s, b, Effect(op, s));
      ReachesTrans(text, a, s, b, Effect(op, s), c, Effect(op, s));
    }
  }

  /** Doing `first` and then `second` is doing `both`. */
  ghost predicate Merges(first: Op, second: Op, both: Op) {
    forall s: State :: Effect(second, Effect(first, s)) == Effect(both, s)
  }

  lemma PerformsTrans(text: string, a: nat, b: nat, c: nat, first: Op, second: Op, both: Op)
    requires Performs(text, a, b, first) && Performs(text, b, c, second) && Merges(first, second, both)
    ensures Performs(text, a, c, both)
  {
    forall s: State ensures Advances(text, a, s, c, Effect(both, s)) {
      var t := Effect(first, s);
      AdvancesReaches(text, a, s, b, t);
      AdvancesReaches(text, b, t, c, Effect(second, t));
      ReachesTrans(text, a, s, b, t, c, Effect(second, t));
    }
  }

  /** The operation that a single command character stands for. */
  function CharOp(c: char): Option<Op> {
    match c
    case '+' => Some(IncDec(1))
    case '-' => Some(IncDec(-1))
    case '<' => Some(LeftRight(-1))
    case '>' => Some(LeftRight(1))
    case '.' => Some(Out)
    case ',' => Some(In)
    case _ => None
  }

  lemma CharPerforms(text: string, a: nat, b: nat)
    requires a < |text| && !IsBracket(text[a]) && b == a + 1
    ensures match CharOp(text[a])
            case None => Silent(text, a, b)
            case Some(op) => Performs(text, a, b, op)
  {
    forall s: State ensures Advances(text, a, s, b, Command(text[a], s)) {
      AdvancesStep(text, a, s);
    }
    match CharOp(text[a])
    case None =>
      forall s: State ensures Reaches(text, a, s, b, s) {
        assert Command(text[a], s) == s;
        AdvancesReaches(text, a, s, b, s);
      }
    case Some(op) =>
      forall s: State ensures Advances(text, a, s, b, Effect(op, s)) {
        assert Command(text[a], s) == Effect(op, s);
      }
  }

  lemma MergeSound(a: int, b: int)
    ensures Merges(IncDec(a), IncDec(b), IncDec(a + b))
    ensures Merges(LeftRight(a), LeftRight(b), LeftRight(a + b))
  {
    forall s: State ensures Effect(IncDec(b), Effect(IncDec(a), s)) == Effect(IncDec(a + b), s) {
      StoreCell(s, s.ptr, Cell(s) + a, s.ptr);
      assert (Cell(s) + a + b) % 256 == ((Cell(s) + a) % 256 + b) % 256;
      StoreTwice(s, s.ptr, Cell(s) + a, (Cell(s) + a) % 256 + b);
      assert Store(s, s.ptr, Cell(s) + a + b) == Store(s, s.ptr, (Cell(s) + a) % 256 + b);
    }
  }

  // ----- leaves -----

  lemma MarksPush(text: string, a: nat, m: nat, b: nat, ops: seq<Op>, marks: seq<nat>, op: Op) returns (r: seq<nat>)
    requires LeafMarks(text, a, m, ops, marks) && Performs(text, m, b, op)
    ensures LeafMarks(text, a, b, ops + [op], r)
  {
    hide Performs, Silent;
    r := marks + [b];
    SilentPerforms(text, marks[|ops|], m, b, op);
    SilentSelf(text, b);
  }

  lemma MarksMerge(text: string, a: nat, m: nat, b: nat, ops: seq<Op>, marks: seq<nat>, op: Op, both: Op)
    returns (r: seq<nat>)
    requires LeafMarks(text, a, m, ops, marks) && Performs(text, m, b, op)
    requires ops != [] && Merges(ops[|ops| - 1], op, both)
    ensures LeafMarks(text, a, b, ops[|ops| - 1 := both], r)
  {
    hide Performs, Merges, Silent;
    var k := |ops| - 1;
    r := marks[k + 1 := b];
    PerformsSilent(text, marks[k], marks[k + 1], m, ops[k]);
    PerformsTrans(text, marks[k], m, b, ops[k], op, both);
    SilentSelf(text, b);
  }

  lemma MarksTryMerge(text: string, a: nat, m: nat, b: nat, ops: seq<Op>, marks: seq<nat>, op: Op)
    returns (r: seq<nat>)
    requires LeafMarks(text, a, m, ops, marks) && Performs(text, m, b, op)
    ensures LeafMarks(text, a, b, TryMerge(ops, op), r)
  {
    if ops == [] {
      r := MarksPush(text, a, m, b, ops, marks, op);
    } else {
      match (ops[|ops| - 1], op)
      case (IncDec(x), IncDec(y)) =>
        MergeSound(x, y);
        r := MarksMerge(text, a, m, b, ops, marks, op, IncDec(x + y));
      case (LeftRight(x), LeftRight(y)) =>
        MergeSound(x, y);
        r := MarksMerge(text, a, m, b, ops, marks, op, LeftRight(x + y));
      case _ =>
        r := MarksPush(text, a, m, b, ops, marks, op);
    }
  }

  lemma LeafOpsSnoc(text: string, a: nat, b: nat)
    requires a < b <= |text| && !IsBracket(text[b - 1])
    ensures LeafOps(text[a..b]) == match CharOp(text[b - 1])
      case None => LeafOps(text[a..b - 1])
      case Some(op) => TryMerge(LeafOps(text[a..b - 1]), op)
  {
    hide TryMerge;
    assert text[a..b][..b - a - 1] == text[a..b - 1];
  }

  /** Run-length merging preserves meaning: bracket-free text is represented by its merged operations. */
  lemma {:induction false} LeafRepresents(text: string, a: nat, b: nat) returns (marks: seq<nat>)
    requires a <= b <= |text| && forall i :: a <= i < b ==> !IsBracket(text[i])
    ensures LeafMarks(text, a, b, LeafOps(text[a..b]), marks)
  {
    hide Performs, Silent, LeafOps, CharOp, TryMerge, IsBracket;
    if a == b {
      NoOps();
      assert text[a..b] == "";
      marks := [a];
      SilentSelf(text, a);
    } else {
      var before := LeafRepresents(text, a, b - 1);
      var ops := LeafOps(text[a..b - 1]);
      LeafOpsSnoc(text, a, b);
      CharPerforms(text, b - 1, b);
      match CharOp(text[b - 1])
      case None =>
        marks := before;
        SilentTrans(text, marks[|ops|], b - 1, b);
      case Some(op) =>
        marks := MarksTryMerge(text, a, b - 1, b, ops, before, op);
    }
  }

  lemma NoOps()
    ensures LeafOps("") == []
  {
  }

  /** Two leaves in a row are one leaf. */
  lemma MarksConcat(text: string, a: nat, m: nat, b: nat, ops: seq<Op>, marks: seq<nat>, ops': seq<Op>,
                    marks': seq<nat>)
    returns (r: seq<nat>)
    requires LeafMarks(text, a, m, ops, marks) && LeafMarks(text, m, b, ops', marks')
    ensures LeafMarks(text, a, b, ops + ops', r)
  {
    r := marks + marks'[1..];
    if ops' == [] {
      SilentTrans(text, marks[|ops|], m, b);
    } else {
      SilentPerforms(text, marks[|ops|], m, marks'[1], ops'[0]);
      forall i | 0 <= i < |ops + ops'| ensures Performs(text, r[i], r[i + 1], (ops + ops')[i]) {
        if i > |ops| {
          assert Performs(text, marks'[i - |ops|], marks'[i - |ops| + 1], ops'[i - |ops|]);
        }
      }
    }
  }

  // ----- loops -----

  lemma LoopSkip(text: string, a: nat, b: nat, s: State)
    requires IsLoop(text, a, b) && Cell(s) == 0
    ensures Advances(text, a, s, b, s)
  {
    AdvancesStep(text, a, s);
  }

  lemma LoopRound(text: string, a: nat, b: nat, s: State, t: State)
    requires IsLoop(text, a, b) && Cell(s) != 0 && Reaches(text, a + 1, s, b - 1, t)
    ensures Advances(text, a, s, if Cell(t) == 0 then b else a, t)
  {
    AdvancesStep(text, a, s);
    AdvancesReaches(text, a, s, a + 1, s);
    ReachesTrans(text, a, s, a + 1, s, b - 1, t);
    AdvancesStep(text, b - 1, t);
    AdvancesReaches(text, b - 1, t, if Cell(t) == 0 then b else a, t);
    ReachesTrans(text, a, s, b - 1, t, if Cell(t) == 0 then b else a, t);
  }

  /** `rounds` more rounds of a loop whose body is `body`, and then out of it. */
  lemma LoopAgain(text: string, a: nat, b: nat, s: State, t: State, u: State)
    requires IsLoop(text, a, b) && Cell(s) != 0 && Reaches(text, a + 1, s, b - 1, t)
    requires Cell(t) == 0 ==> u == t
    requires Cell(t) != 0 ==> Advances(text, a, t, b, u)
    ensures Advances(text, a, s, b, u)
  {
    LoopRound(text, a, b, s, t);
    if Cell(t) != 0 {
      AdvancesReaches(text, a, s, a, t);
      AdvancesReaches(text, a, t, b, u);
      ReachesTrans(text, a, s, a, t, b, u);
    }
  }

  /** `[-]` sets the cell to zero. */
  lemma {:induction false} ZeroLoop(text: string, a: nat, s: State)
    requires IsLoop(text, a, a + 3) && text[a + 1] == '-'
    ensures Advances(text, a, s, a + 3, Effect(SetZero, s))
    decreases Cell(s)
  {
    if Cell(s) == 0 {
      StoreSame(s, s.ptr);
      LoopSkip(text, a, a + 3, s);
    } else {
      var t := Command('-', s);
      StoreCell(s, s.ptr, Cell(s) - 1, s.ptr);
      AdvancesStep(text, a + 1, s);
      AdvancesReaches(text, a + 1, s, a + 2, t);
      ZeroLoop(text, a, t);
      StoreTwice(s, s.ptr, Cell(s) - 1, 0);
      StoreSame(t, t.ptr);
      LoopAgain(text, a, a + 3, s, t, Effect(SetZero, s));
    }
  }

  lemma ZeroLoopPerforms(text: string, a: nat, b: nat)
    requires b == a + 3 <= |text| && text[a] == '[' && text[a + 1] == '-' && text[a + 2] == ']'
    ensures Performs(text, a, b, SetZero)
    ensures Balanced(text, a, b)
  {
    BalancedPlain(text, a + 1);
    BalancedLoop(text, a, a + 2);
    forall s: State ensures Advances(text, a, s, b, Effect(SetZero, s)) {
      ZeroLoop(text, a, s);
    }
  }

  function Transfer(l: int): seq<Op> {
    [IncDec(-1), LeftRight(l), IncDec(1), LeftRight(-l)]
  }

  /** One round of the transfer loop: a unit goes from the cell to the one `l` away. */
  function TransferOne(l: int, s: State): State {
    Effect(LeftRight(-l), Effect(IncDec(1), Effect(LeftRight(l), Effect(IncDec(-1), s))))
  }

  lemma TransferBody(text: string, a: nat, b: nat, l: int, marks: seq<nat>, s: State)
    requires LeafMarks(text, a, b, Transfer(l), marks)
    ensures Reaches(text, a, s, b, TransferOne(l, s))
  {
    var s1 := Effect(IncDec(-1), s);
    var s2 := Effect(LeftRight(l), s1);
    var s3 := Effect(IncDec(1), s2);
    var s4 := Effect(LeftRight(-l), s3);
    assert Performs(text, marks[0], marks[1], Transfer(l)[0]);
    assert Performs(text, marks[1], marks[2], Transfer(l)[1]);
    assert Performs(text, marks[2], marks[3], Transfer(l)[2]);
    assert Performs(text, marks[3], marks[4], Transfer(l)[3]);
    AdvancesReaches(text, a, s, marks[1], s1);
    AdvancesReaches(text, marks[1], s1, marks[2], s2);
    AdvancesReaches(text, marks[2], s2, marks[3], s3);
    AdvancesReaches(text, marks[3], s3, marks[4], s4);
    ReachesTrans(text, a, s, marks[1], s1, marks[2], s2);
    ReachesTrans(text, a, s, marks[2], s2, marks[3], s3);
    ReachesTrans(text, a, s, marks[3], s3, marks[4], s4);
    ReachesTrans(text, a, s, marks[4], s4, b, s4);
  }

  lemma TransferOneStores(l: int, s: State, v: int, w: int)
    requires l != 0 && v == Cell(s) && w == CellAt(s, s.ptr + l)
    ensures TransferOne(l, s) == Store(Store(s, s.ptr, v - 1), s.ptr + l, w + 1)
  {
    StoreCell(s, s.ptr, v - 1, s.ptr + l);
  }

  /** `AddTo`, with the values of the two cells spelled out. */
  lemma AddToStores(l: int, s: State, v: int, w: int)
    requires l != 0 && v == Cell(s) && w == CellAt(s, s.ptr + l)
    ensures Effect(AddTo(l), s) == Store(Store(s, s.ptr, 0), s.ptr + l, w + v)
  {
    StoreCell(s, s.ptr, 0, s.ptr + l);
  }

  lemma MovedUnit(v: int, w: int)
    ensures ((w + 1) % 256 + (v - 1)) % 256 == (w + v) % 256
  {
  }

  lemma StoresStep(s: State, p: int, q: int, v: int, w: int)
    requires p != q
    ensures Store(Store(Store(Store(s, p, v - 1), q, w + 1), p, 0), q, (w + 1) % 256 + (v - 1))
         == Store(Store(s, p, 0), q, w + v)
  {
    hide Store;
    StoreSwap(Store(s, p, v - 1), q, w + 1, p, 0);
    MovedUnit(v, w);
    StoreTwice(s, p, v - 1, 0);
    StoreTwice(Store(s, p, 0), q, w + 1, (w + 1) % 256 + (v - 1));
    SameModulo(Store(s, p, 0), q, (w + 1) % 256 + (v - 1), w + v);
  }

  lemma TransferStepCells(s: State, p: int, q: int, v: int, w: int)
    requires p != q && 0 < v < 256
    ensures var t := Store(Store(s, p, v - 1), q, w + 1);
      CellAt(t, p) == v - 1 && CellAt(t, q) == (w + 1) % 256
  {
    StoreCell(s, p, v - 1, p);
    StoreCell(Store(s, p, v - 1), q, w + 1, p);
    StoreCell(Store(s, p, v - 1), q, w + 1, q);
  }

  /** A transfer by one unit does not change where the whole transfer ends. */
  lemma TransferStep(l: int, s: State)
    requires l != 0 && Cell(s) != 0
    ensures Cell(TransferOne(l, s)) == Cell(s) - 1
    ensures Effect(AddTo(l), TransferOne(l, s)) == Effect(AddTo(l), s)
  {
    hide Store, CellAt, TransferOne, Effect;
    var p, q := s.ptr, s.ptr + l;
    var v: int, w: int := Cell(s), CellAt(s, q);
    StoreKeeps(s, p, v - 1);
    StoreKeeps(Store(s, p, v - 1), q, w + 1);
    TransferOneStores(l, s, v, w);
    TransferStepCells(s, p, q, v, w);
    var t := TransferOne(l, s);
    assert t.ptr == p;
    AddToStores(l, t, v - 1, (w + 1) % 256);
    AddToStores(l, s, v, w);
    StoresStep(s, p, q, v, w);
  }

  lemma SameModulo(s: State, i: int, v: int, w: int)
    requires v % 256 == w % 256
    ensures Store(s, i, v) == Store(s, i, w)
  {
  }

  lemma TransferNothing(l: int, s: State)
    requires Cell(s) == 0
    ensures Effect(AddTo(l), s) == s
  {
    assert Effect(AddTo(l), s).tape == s.tape;
  }

  lemma {:induction false} TransferLoop(text: string, a: nat, b: nat, l: int, marks: seq<nat>, s: State)
    requires IsLoop(text, a, b) && l != 0
    requires LeafMarks(text, a + 1, b - 1, Transfer(l), marks)
    ensures Advances(text, a, s, b, Effect(AddTo(l), s))
    decreases Cell(s)
  {
    hide Store, CellAt, TransferOne, Effect;
    if Cell(s) == 0 {
      TransferNothing(l, s);
      LoopSkip(text, a, b, s);
    } else {
      var t := TransferOne(l, s);
      TransferBody(text, a + 1, b - 1, l, marks, s);
      TransferStep(l, s);
      TransferLoop(text, a, b, l, marks, t);
      if Cell(t) == 0 {
        TransferNothing(l, t);
      }
      LoopAgain(text, a, b, s, t, Effect(AddTo(l), s));
    }
  }

  /** A loop recognised as a transfer is represented by one `AddTo`. */
  lemma TransferPerforms(bf: BF, text: string, a: nat, b: nat)
    requires IsAddTo(bf).Some? && Represents(bf, text, a, b)
    ensures Performs(text, a, b, AddTo(IsAddTo(bf).value))
  {
    var l := IsAddTo(bf).value;
    assert bf == Loop(Leaf(Transfer(l)));
    assert Represents(Leaf(Transfer(l)), text, a + 1, b - 1);
    var marks :| LeafMarks(text, a + 1, b - 1, Transfer(l), marks);
    forall s: State ensures Advances(text, a, s, b, Effect(AddTo(l), s)) {
      TransferLoop(text, a, b, l, marks, s);
    }
  }

  // ----- the parser -----

  /** Text position `a` is where the unread source `code` starts, inside `depth` open loops. */
  ghost predicate Reading(text: string, a: nat, code: string, depth: nat) {
    a <= |text| && text[a..] == Effective(code, depth)
  }

  lemma ReadOne(text: string, a: nat, code: string, depth: nat)
    requires Reading(text, a, code, depth) && code != ""
    ensures code[0] != ']' || depth > 0 ==> a < |text| && text[a] == code[0]
    ensures code[0] == '[' ==> Reading(text, a + 1, code[1..], depth + 1)
    ensures code[0] == ']' && depth > 0 ==> Reading(text, a + 1, code[1..], depth - 1)
    ensures !IsBracket(code[0]) ==> Reading(text, a + 1, code[1..], depth)
  {
    if code[0] != ']' || depth > 0 {
      assert text[a] == text[a..][0] == code[0];
      assert text[a + 1..] == text[a..][1..];
    }
  }

  /** A bracket-free stretch of the source is copied, and is balanced. */
  lemma {:induction false} ReadPlain(text: string, a: nat, code: string, depth: nat, n: nat)
    requires Reading(text, a, code, depth) && n <= |code|
    requires forall i :: 0 <= i < n ==> !IsBracket(code[i])
    ensures a + n <= |text| && text[a..a + n] == code[..n]
    ensures Reading(text, a + n, code[n..], depth)
    ensures Balanced(text, a, a + n)
    decreases n
  {
    if n == 0 {
      BalancedEmpty(text, a);
    } else {
      ReadOne(text, a, code, depth);
      assert forall i :: 0 <= i < n - 1 ==> code[1..][i] == code[i + 1];
      ReadPlain(text, a + 1, code[1..], depth, n - 1);
      BalancedPlain(text, a);
      BalancedTrans(text, a, a + 1, a + n);
      assert code[1..][n - 1..] == code[n..];
      assert text[a..a + n] == [text[a]] + text[a + 1..a + n];
      assert code[..n] == [code[0]] + code[1..][..n - 1];
    }
  }

  lemma LeafReads(text: string, a: nat, code: string, depth: nat) returns (b: nat)
    requires Reading(text, a, code, depth)
    ensures a <= b <= |text| && Reading(text, b, code[LeafEnd(code)..], depth)
    ensures Balanced(text, a, b)
    ensures Represents(Leaf(LeafOps(code[..LeafEnd(code)])), text, a, b)
  {
    var n := LeafEnd(code);
    ReadPlain(text, a, code, depth, n);
    b := a + n;
    forall i | a <= i < b ensures !IsBracket(text[i]) {
      assert text[i] == text[a..b][i - a] == code[i - a];
    }
    var marks := LeafRepresents(text, a, b);
  }

  /** The positions after `a` when the closing bracket that `rest` starts with, or that the
      end of the file stands for, has been read. */
  lemma ReadClose(text: string, a: nat, rest: string, depth: nat)
    requires depth > 0 && Reading(text, a, rest, depth) && (rest == "" || rest[0] == ']')
    ensures a < |text| && text[a] == ']'
    ensures Reading(text, a + 1, if rest == "" then rest else rest[1..], depth - 1)
  {
    if rest == "" {
      assert text[a..] == Closers(depth);
      assert text[a] == text[a..][0];
      assert text[a + 1..] == text[a..][1..] == Closers(depth - 1);
    } else {
      ReadOne(text, a, rest, depth);
    }
  }

  lemma RepresentSnoc(nodes: seq<BF>, node: BF, text: string, a: nat, m: nat, b: nat)
    requires RepresentAll(nodes, text, a, m) && Represents(node, text, m, b)
    ensures RepresentAll(nodes + [node], text, a, b)
  {
    var all := nodes + [node];
    assert all[..|all| - 1] == nodes && all[|all| - 1] == node;
  }

  lemma AddNodeRepresents(nodes: seq<BF>, node: BF, text: string, a: nat, m: nat, b: nat)
    requires RepresentAll(nodes, text, a, m) && Represents(node, text, m, b)
    ensures RepresentAll(AddNode(nodes, node), text, a, b)
  {
    if nodes != [] && nodes[|nodes| - 1].Leaf? && node.Leaf? {
      var first, last := nodes[..|nodes| - 1], nodes[|nodes| - 1];
      var k: nat :| RepresentAll(first, text, a, k) && Represents(last, text, k, m);
      var marks :| LeafMarks(text, k, m, last.ops, marks);
      var marks' :| LeafMarks(text, m, b, node.ops, marks');
      var both := MarksConcat(text, k, m, b, last.ops, marks, node.ops, marks');
      RepresentSnoc(first, Leaf(last.ops + node.ops), text, a, k, b);
      assert AddNode(nodes, node) == first + [Leaf(last.ops + node.ops)];
    } else {
      RepresentSnoc(nodes, node, text, a, m, b);
    }
  }

  /** What is left after the nodes of one level: nothing, or the bracket that closes the level. */
  predicate AtClose(rest: string) {
    rest == "" || rest[0] == ']'
  }

  lemma ZeroReads(text: string, a: nat, code: string, depth: nat) returns (b: nat)
    requires Reading(text, a, code, depth) && "[-]" <= code
    ensures a <= b <= |text| && Reading(text, b, code[3..], depth) && Balanced(text, a, b)
    ensures Represents(Leaf([SetZero]), text, a, b)
  {
    assert code[1] == '-' && code[2] == ']';
    ReadOne(text, a, code, depth);
    ReadOne(text, a + 1, code[1..], depth + 1);
    ReadOne(text, a + 2, code[1..][1..], depth + 1);
    assert code[1..][1..][1..] == code[3..];
    b := a + 3;
    ZeroLoopPerforms(text, a, b);
    SilentSelf(text, b);
    assert LeafMarks(text, a, b, [SetZero], [a, b]);
  }

  /** A loop whose body is read up to `m`, closed by a bracket or by the end of the file. */
  lemma LoopReads(text: string, a: nat, m: nat, body: BF, rest: string, depth: nat) returns (b: nat)
    requires a < m <= |text| && text[a] == '[' && Balanced(text, a + 1, m) && Represents(body, text, a + 1, m)
    requires Reading(text, m, rest, depth + 1) && AtClose(rest)
    ensures a <= b <= |text| && Balanced(text, a, b)
    ensures Reading(text, b, if rest == "" then rest else rest[1..], depth)
    ensures Represents(
        if IsAddTo(Loop(body)).Some? then Leaf([AddTo(IsAddTo(Loop(body)).value)]) else Loop(body), text, a, b)
  {
    ReadClose(text, m, rest, depth + 1);
    BalancedLoop(text, a, m);
    b := m + 1;
    var node := Loop(body);
    assert Represents(node, text, a, b);
    if IsAddTo(node).Some? {
      TransferPerforms(node, text, a, b);
      SilentSelf(text, b);
      assert LeafMarks(text, a, b, [AddTo(IsAddTo(node).value)], [a, b]);
    }
  }

  lemma {:induction false} InnerReads(text: string, a: nat, code: string, depth: nat) returns (b: nat)
    requires Reading(text, a, code, depth)
    ensures var (bf, rest) := Inner(code);
      a <= b <= |text| && Reading(text, b, rest, depth) && AtClose(rest)
      && Balanced(text, a, b) && Represents(bf, text, a, b)
    decreases |code|, 2
  {
    var end := LeafEnd(code);
    var first := Leaf(LeafOps(code[..end]));
    b := LeafReads(text, a, code, depth);
    if end < |code| {
      assert [first][..0] == [];
      assert RepresentAll([first][..0], text, a, a);
      assert RepresentAll([first], text, a, b);
      b := NodesRead(text, a, b, [first], code[end..], depth);
    }
  }

  lemma {:induction false} NextReads(text: string, a: nat, code: string, depth: nat) returns (b: nat)
    requires Reading(text, a, code, depth) && code != "" && code[0] != ']'
    ensures var (node, rest) := Next(code);
      a <= b <= |text| && Reading(text, b, rest, depth) && Balanced(text, a, b) && Represents(node, text, a, b)
    decreases |code|, 0
  {
    if code[0] != '[' {
      b := LeafReads(text, a, code, depth);
    } else if "[-]" <= code {
      b := ZeroReads(text, a, code, depth);
    } else {
      ReadOne(text, a, code, depth);
      var m := InnerReads(text, a + 1, code[1..], depth + 1);
      b := LoopReads(text, a, m, Inner(code[1..]).0, Inner(code[1..]).1, depth);
    }
  }

  lemma {:induction false} NodesRead(text: string, a: nat, m: nat, nodes: seq<BF>, code: string, depth: nat)
    returns (b: nat)
    requires a <= m && Reading(text, m, code, depth) && Balanced(text, a, m) && RepresentAll(nodes, text, a, m)
    ensures var (all, rest) := Nodes(nodes, code);
      m <= b <= |text| && Reading(text, b, rest, depth) && AtClose(rest)
      && Balanced(text, a, b) && RepresentAll(all, text, a, b)
    decreases |code|, 1
  {
    if AtClose(code) {
      b := m;
    } else {
      var (node, rest) := Next(code);
      var k := NextReads(text, m, code, depth);
      BalancedTrans(text, a, m, k);
      AddNodeRepresents(nodes, node, text, a, m, k);
      b := NodesRead(text, a, k, AddNode(nodes, node), rest, depth);
    }
  }

  /** The whole tree represents the whole effective text, and the effective text is balanced. */
  lemma ParsedRepresents(code: string)
    ensures var text := Effective(code, 0);
      Balanced(text, 0, |text|) && Represents(Parsed(code), text, 0, |text|)
  {
    var text := Effective(code, 0);
    assert text[0..] == text;
    var b := InnerReads(text, 0, code, 0);
    assert Effective(Inner(code).1, 0) == "";
    assert b == |text|;
  }
}
