/** Compiled brainf**k on a machine with registers and memory.

    The machine does what the body of each stencil does (`examples/bf-stencils/src/lib.rs`), with the operands where
    the stencil was emitted to look for them.  It knows nothing about a tape or a pointer. */
module BfRegisters {
  import opened Wrappers
  import opened Words
  import opened Locations
  import opened BfSource
  import opened BfMeaning
  import opened BfTarget
  import opened BfSimulation
  import opened BfNotes
  import opened BfCorrectness
  import opened BfCounts

  /** The registers and stack slots, the memory that may be accessed, the bytes still to be read and those written. */
  datatype Cpu = Cpu(frame: map<Location, Word>, memory: map<Word, Byte>, input: seq<Byte>, output: seq<Byte>)

  datatype CpuRun =
    | Going(block: nat, index: nat, c: Cpu)
    | Gone(value: Word, c: Cpu)
    | Fault

  function InputCount(stencil: Stencil): nat {
    if Moves(stencil) then 1 else if stencil in {JMP, RET} then 0 else 3
  }

  function OutputCount(stencil: Stencil): nat {
    if Moves(stencil) then 1 else 0
  }

  /** The stencil has as many operands as its parameters, and its inputs have values. */
  predicate Fits(e: Ins, c: Cpu) {
    && |e.inputs| == InputCount(e.stencil) && |e.outputs| == OutputCount(e.stencil)
    && |e.holes| == HoleCount(e.stencil) && |e.jumps| == JumpCount(e.stencil)
    && forall k :: 0 <= k < |e.inputs| ==> e.inputs[k] in c.frame
  }

  function Address(p: Word, i: int): Word {
    Wrap(p + i)
  }

  function Poke(c: Cpu, a: Word, v: int): Cpu {
    c.(memory := c.memory[a := v % 256])
  }

  /** Moves the index to another one. */
  function Shift(e: Ins, c: Cpu, n: int): Cpu
    requires Fits(e, c) && Moves(e.stencil)
  {
    c.(frame := c.frame[e.outputs[0] := Wrap(c.frame[e.inputs[0]] + n)])
  }

  /** The bodies that work on the cell `v` at the address `a`. */
  function OnCell(e: Ins, host: Host, c: Cpu, a: Word, v: Byte): Option<Cpu>
    requires Fits(e, c) && IsData(e.stencil) && !Moves(e.stencil)
  {
    match e.stencil
    case ADD1 => Some(Poke(c, a, v + 1))
    case ADDN => Some(Poke(c, a, v + e.holes[0]))
    case SUB1 => Some(Poke(c, a, v - 1))
    case SUBN => Some(Poke(c, a, v - e.holes[0]))
    case PRINT => if e.holes[0] == host.printer then Some(c.(output := c.output + [v])) else None
    case READ =>
      if e.holes[0] != host.reader then None
      else if c.input == [] then Some(Poke(c, a, 0))
      else Some(Poke(c, a, c.input[0]).(input := c.input[1..]))
    case SET_0 => Some(Poke(c, a, 0))
    case ADD_TO =>
      var cleared := Poke(c, a, 0);
      var b := Address(c.frame[e.inputs[0]], Wrap(c.frame[e.inputs[2]] + FromWord(e.holes[0])));
      if b in cleared.memory then Some(Poke(cleared, b, cleared.memory[b] + v)) else None
  }

  function DataBody(e: Ins, host: Host, c: Cpu): Option<Cpu>
    requires Fits(e, c) && IsData(e.stencil)
  {
    if Moves(e.stencil) then
      match e.stencil
      case LEFT1 => Some(Shift(e, c, -1))
      case LEFTN => var n: int := e.holes[0]; Some(Shift(e, c, -n))
      case RIGHT1 => Some(Shift(e, c, 1))
      case RIGHTN => Some(Shift(e, c, e.holes[0]))
    else
      var a := Address(c.frame[e.inputs[0]], c.frame[e.inputs[2]]);
      if a in c.memory then OnCell(e, host, c, a, c.memory[a]) else None
  }

  function CpuGoto(block: nat, index: nat, jump: JumpTarget, c: Cpu): CpuRun {
    match jump
    case NextStencil => Going(block, index + 1, c)
    case Target(b) => Going(b, 0, c)
  }

  function CpuExecute(e: Ins, host: Host, block: nat, index: nat, c: Cpu): CpuRun {
    if !Fits(e, c) then Fault
    else match e.stencil
      case CHECK =>
        CpuGoto(block, index, e.jumps[if c.frame[e.inputs[2]] < c.frame[e.inputs[1]] then 0 else 1], c)
      case IF_ZERO =>
        var a := Address(c.frame[e.inputs[0]], c.frame[e.inputs[2]]);
        if c.frame[e.inputs[2]] >= c.frame[e.inputs[1]] then CpuGoto(block, index, e.jumps[2], c)
        else if a !in c.memory then Fault
        else CpuGoto(block, index, e.jumps[if c.memory[a] == 0 then 0 else 1], c)
      case JMP => CpuGoto(block, index, e.jumps[0], c)
      case RET => Gone(Wrap(e.holes[0]), c)
      case _ =>
        match DataBody(e, host, c)
        case None => Fault
        case Some(d) => CpuGoto(block, index, e.jumps[0], d)
  }

  function CpuStep(graph: Graph, host: Host, r: CpuRun): CpuRun {
    if !r.Going? then r
    else if !HasCode(graph, r.block, r.index) then Fault
    else CpuExecute(graph[r.block][r.index], host, r.block, r.index, r.c)
  }

  function CpuAt(graph: Graph, host: Host, c: Cpu, n: nat): CpuRun {
    if n == 0 then Going(0, 0, c) else CpuStep(graph, host, CpuAt(graph, host, c, n - 1))
  }

  // ----- the tape in memory -----

  /** What is allocated before and after the tape. */
  const PADDING := 4096

  /** No allocation is longer than this, and so is no source file. */
  const MAX_LENGTH := WORD / 2 - 1

  predicate SizesOk(len: nat, source: string) {
    0 < len && len + 2 * PADDING <= MAX_LENGTH && |source| <= MAX_LENGTH
  }

  predicate Padded(len: nat, j: int) {
    -PADDING <= j < len + PADDING
  }

  /** The parameters `base` and `len` are in the first two registers and the pointer is in the third; the padded tape is
      at `base` in memory.  Everything else is as it was on entry, in `c0`. */
  ghost predicate Agrees(base: Word, len: nat, c0: Cpu, s: State, c: Cpu) {
    && Register(0) in c.frame && Register(1) in c.frame && Register(2) in c.frame
    && c.frame[Register(0)] == base && c.frame[Register(1)] == len && c.frame[Register(2)] == Wrap(s.ptr)
    && c.input == s.input && c.output == s.output
    && (forall j :: Padded(len, j) ==> Address(base, j) in c.memory && c.memory[Address(base, j)] == CellAt(s, j))
    && c.frame.Keys == c0.frame.Keys && c.memory.Keys == c0.memory.Keys
    && (forall l :: l in c0.frame && l != Register(2) ==> c.frame[l] == c0.frame[l])
    && (forall a :: a in c0.memory && Elsewhere(base, len, a) ==> c.memory[a] == c0.memory[a])
  }

  ghost predicate Elsewhere(base: Word, len: nat, a: Word) {
    forall j :: Padded(len, j) ==> Address(base, j) != a
  }

  lemma AddressesDiffer(base: Word, len: nat, i: int, j: int)
    requires len + 2 * PADDING <= MAX_LENGTH && Padded(len, i) && Padded(len, j) && i != j
    ensures Address(base, i) != Address(base, j)
  {
    if Address(base, i) == Address(base, j) {
      var (p, q) := ((base + i) / WORD, (base + j) / WORD);
      assert WORD * (p - q) == i - j;
      SmallMultiple(WORD, p - q, i - j);
    }
  }

  /** The address of a cell, from the wrapped pointer. */
  lemma CellAddress(base: Word, i: int)
    ensures Address(base, Wrap(i)) == Address(base, i)
  {
    WrapSum(i, base);
  }

  lemma PokeAgrees(base: Word, len: nat, c0: Cpu, s: State, c: Cpu, j: int, v: int)
    requires Agrees(base, len, c0, s, c) && len + 2 * PADDING <= MAX_LENGTH && Padded(len, j)
    ensures Agrees(base, len, c0, Store(s, j, v), Poke(c, Address(base, j), v))
  {
    hide Wrap, Store, CellAt, Address;
    var (s', d) := (Store(s, j, v), Poke(c, Address(base, j), v));
    StoreKeeps(s, j, v);
    assert d.memory.Keys == c.memory.Keys;
    forall i | Padded(len, i) ensures Address(base, i) in d.memory && d.memory[Address(base, i)] == CellAt(s', i) {
      StoreCell(s, j, v, i);
      if i != j {
        AddressesDiffer(base, len, i, j);
      }
    }
    assert s'.input == s.input && s'.output == s.output by {
      StoreRest(s, j, v);
    }
  }

  lemma StoreRest(s: State, j: int, v: int)
    ensures Store(s, j, v).input == s.input && Store(s, j, v).output == s.output
  {
  }

  // ----- single stencils -----

  /** The operands of a data stencil in the registers of the parameters. */
  lemma OperandsFit(e: Ins, host: Host, base: Word, len: nat, c0: Cpu, s: State, c: Cpu)
    requires OperandsOk(e, host) && Agrees(base, len, c0, s, c)
    ensures Fits(e, c)
    ensures |e.inputs| == 3 ==>
      && c.frame[e.inputs[0]] == base && c.frame[e.inputs[1]] == len && c.frame[e.inputs[2]] == Wrap(s.ptr)
  {
    hide CellAt, Wrap, Address, Elsewhere;
  }

  lemma ShiftAgrees(e: Ins, host: Host, base: Word, len: nat, c0: Cpu, s: State, c: Cpu, n: int)
    requires OperandsOk(e, host) && Moves(e.stencil) && Agrees(base, len, c0, s, c) && Fits(e, c)
    ensures Agrees(base, len, c0, Move(s, n), Shift(e, c, n))
  {
    hide CellAt, Address, Elsewhere;
    WrapSum(s.ptr, n);
    var d := Shift(e, c, n);
    assert d.frame.Keys == c.frame.Keys;
    CellsMoved(s, n);
  }

  lemma CellsMoved(s: State, n: int)
    ensures forall j :: CellAt(Move(s, n), j) == CellAt(s, j)
  {
  }

  lemma OutputAgrees(base: Word, len: nat, c0: Cpu, s: State, c: Cpu, v: Byte)
    requires Agrees(base, len, c0, s, c)
    ensures Agrees(base, len, c0, s.(output := s.output + [v]), c.(output := c.output + [v]))
  {
    hide Wrap, Address, Elsewhere;
  }

  lemma InputAgrees(base: Word, len: nat, c0: Cpu, s: State, c: Cpu, input: seq<Byte>)
    requires Agrees(base, len, c0, s, c)
    ensures Agrees(base, len, c0, s.(input := input), c.(input := input))
  {
    hide Wrap, Address, Elsewhere;
  }

  /** A body that works on the cell under the pointer, if all cells that it touches are in the padded tape. */
  lemma CellAgrees(e: Ins, host: Host, base: Word, len: nat, c0: Cpu, s: State, c: Cpu)
    requires OperandsOk(e, host) && IsData(e.stencil) && !Moves(e.stencil) && e.stencil != ADD_TO
    requires Agrees(base, len, c0, s, c) && Fits(e, c) && len + 2 * PADDING <= MAX_LENGTH && Padded(len, s.ptr)
    ensures var r := OnCell(e, host, c, Address(base, s.ptr), Cell(s));
      r.Some? && Agrees(base, len, c0, DataEffect(e, host, s), r.value)
  {
    hide Agrees, Wrap, Store, CellAt, Address;
    var a := Address(base, s.ptr);
    var v: int := Cell(s);
    match e.stencil
    case ADD1 => PokeAgrees(base, len, c0, s, c, s.ptr, v + 1);
    case ADDN =>
      PokeAgrees(base, len, c0, s, c, s.ptr, v + e.holes[0]);
      LowByte(s, s.ptr, v, e.holes[0]);
    case SUB1 => PokeAgrees(base, len, c0, s, c, s.ptr, v - 1);
    case SUBN =>
      PokeAgrees(base, len, c0, s, c, s.ptr, v - e.holes[0]);
      LowByte(s, s.ptr, v, e.holes[0]);
    case PRINT => OutputAgrees(base, len, c0, s, c, Cell(s));
    case READ =>
      assert c.input == s.input && s.output == c.output by {
        SameInput(base, len, c0, s, c);
      }
      if s.input == [] {
        PokeAgrees(base, len, c0, s, c, s.ptr, 0);
      } else {
        PokeAgrees(base, len, c0, s, c, s.ptr, s.input[0]);
        InputAgrees(base, len, c0, Store(s, s.ptr, s.input[0]), Poke(c, a, s.input[0]), s.input[1..]);
      }
    case SET_0 => PokeAgrees(base, len, c0, s, c, s.ptr, 0);
  }

  lemma SameInput(base: Word, len: nat, c0: Cpu, s: State, c: Cpu)
    requires Agrees(base, len, c0, s, c)
    ensures c.input == s.input && c.output == s.output
  {
  }

  /** Only the low byte of a count matters. */
  lemma LowByte(s: State, j: int, v: int, n: int)
    ensures Store(s, j, v + n) == Store(s, j, v + n % 256)
    ensures Store(s, j, v - n) == Store(s, j, v - n % 256)
  {
    assert n == 256 * (n / 256) + n % 256;
    DivUnique(v + n, 256, (v + n % 256) / 256 + n / 256, (v + n % 256) % 256);
    DivUnique(v - n, 256, (v - n % 256) / 256 - n / 256, (v - n % 256) % 256);
  }

  lemma TransferAgrees(e: Ins, host: Host, base: Word, len: nat, c0: Cpu, s: State, c: Cpu)
    requires OperandsOk(e, host) && e.stencil == ADD_TO
    requires Agrees(base, len, c0, s, c) && Fits(e, c) && len + 2 * PADDING <= MAX_LENGTH
    requires Padded(len, s.ptr) && Padded(len, s.ptr + FromWord(e.holes[0]))
    ensures var r := OnCell(e, host, c, Address(base, s.ptr), Cell(s));
      r.Some? && Agrees(base, len, c0, DataEffect(e, host, s), r.value)
  {
    hide Agrees, Wrap, Store, CellAt, Address, FromWord;
    var (v, n) := (Cell(s), FromWord(e.holes[0]));
    var (s', c') := (Store(s, s.ptr, 0), Poke(c, Address(base, s.ptr), 0));
    PokeAgrees(base, len, c0, s, c, s.ptr, 0);
    OperandsFit(e, host, base, len, c0, s, c);
    assert Address(c.frame[e.inputs[0]], Wrap(c.frame[e.inputs[2]] + n)) == Address(base, s.ptr + n) by {
      WrapSum(s.ptr, n);
      CellAddress(base, s.ptr + n);
    }
    var b := Address(base, s.ptr + n);
    assert b in c'.memory && c'.memory[b] == CellAt(s', s.ptr + n) by {
      CellHeld(base, len, c0, s', c', s.ptr + n);
    }
    var w: int := c'.memory[b];
    PokeAgrees(base, len, c0, s', c', s.ptr + n, w + v);
  }

  lemma CellHeld(base: Word, len: nat, c0: Cpu, s: State, c: Cpu, j: int)
    requires Agrees(base, len, c0, s, c) && Padded(len, j)
    ensures Address(base, j) in c.memory && c.memory[Address(base, j)] == CellAt(s, j)
  {
  }

  /** The body of a data stencil has the effect on the machine that it has on the tape. */
  lemma DataAgrees(e: Ins, host: Host, base: Word, len: nat, c0: Cpu, s: State, c: Cpu)
    requires OperandsOk(e, host) && IsData(e.stencil)
    requires Agrees(base, len, c0, s, c) && Fits(e, c) && len + 2 * PADDING <= MAX_LENGTH
    requires forall x :: x in Touches(e, host, len, s) ==> Padded(len, x)
    ensures var r := DataBody(e, host, c);
      r.Some? && Agrees(base, len, c0, DataEffect(e, host, s), r.value)
  {
    hide Agrees, Wrap, Store, CellAt, Address, FromWord, OnCell, Padded;
    OperandsFit(e, host, base, len, c0, s, c);
    if Moves(e.stencil) {
      match e.stencil
      case LEFT1 => ShiftAgrees(e, host, base, len, c0, s, c, -1);
      case LEFTN =>
        var n: int := e.holes[0];
        ShiftAgrees(e, host, base, len, c0, s, c, -n);
      case RIGHT1 => ShiftAgrees(e, host, base, len, c0, s, c, 1);
      case RIGHTN => ShiftAgrees(e, host, base, len, c0, s, c, e.holes[0]);
    } else {
      CellAddress(base, s.ptr);
      assert s.ptr in Touches(e, host, len, s);
      CellHeld(base, len, c0, s, c, s.ptr);
      if e.stencil == ADD_TO {
        assert s.ptr + FromWord(e.holes[0]) in Touches(e, host, len, s);
        TransferAgrees(e, host, base, len, c0, s, c);
      } else {
        CellAgrees(e, host, base, len, c0, s, c);
      }
    }
  }

  /** How far the pointer can be from the tape. */
  predicate Near(len: nat, max: nat, s: State) {
    -1024 - max <= s.ptr < len + 1024 + max
  }

  /** The unsigned comparison of the index with the length is the bounds check. */
  lemma IndexInTape(len: nat, max: nat, s: State)
    requires Near(len, max, s) && len + 1024 + max < WORD
    ensures Wrap(s.ptr) < len <==> InTape(len, s)
  {
    if s.ptr < 0 {
      DivUnique(s.ptr, WORD, -1, s.ptr + WORD);
    } else {
      DivUnique(s.ptr, WORD, 0, s.ptr);
    }
  }

  /** The run on the machine and the run on the tape are at the same place, with the same data. */
  ghost predicate Together(base: Word, len: nat, c0: Cpu, t: Target, r: CpuRun) {
    match t
    case Running(b, i, s) => r.Going? && r.block == b && r.index == i && Agrees(base, len, c0, s, r.c)
    case Returned(v, s) => r.Gone? && r.value == Wrap(v) && Agrees(base, len, c0, s, r.c)
    case Stuck => r.Fault?
  }

  lemma ExecuteTogether(e: Ins, host: Host, base: Word, len: nat, max: nat, c0: Cpu, b: nat, i: nat, s: State, c: Cpu)
    requires OperandsOk(e, host) && Agrees(base, len, c0, s, c)
    requires len + 2 * PADDING <= MAX_LENGTH && len + 1024 + max < WORD && Near(len, max, s)
    requires forall x :: x in Touches(e, host, len, s) ==> Padded(len, x)
    ensures Together(base, len, c0, Execute(e, host, len, b, i, s), CpuExecute(e, host, b, i, c))
  {
    hide Agrees, Wrap, CellAt, Address, DataBody, DataEffect, Padded, OperandsOk, Fits;
    OperandsFit(e, host, base, len, c0, s, c);
    IndexInTape(len, max, s);
    if IsData(e.stencil) {
      DataAgrees(e, host, base, len, c0, s, c);
      assert e.jumps[0] == NextStencil by { JumpOfData(e, host); }
    } else {
      ControlOperands(e, host);
      if e.stencil == IF_ZERO && InTape(len, s) {
        CellAddress(base, s.ptr);
        assert s.ptr in Touches(e, host, len, s);
        CellHeld(base, len, c0, s, c, s.ptr);
      }
    }
  }

  lemma JumpOfData(e: Ins, host: Host)
    requires OperandsOk(e, host) && IsData(e.stencil)
    ensures e.jumps != [] && e.jumps[0] == NextStencil
  {
  }

  lemma ControlOperands(e: Ins, host: Host)
    requires OperandsOk(e, host) && !IsData(e.stencil)
    ensures |e.jumps| == JumpCount(e.stencil) && |e.holes| == HoleCount(e.stencil)
    ensures e.stencil in {CHECK, IF_ZERO} ==> |e.inputs| == 3
  {
  }

  // ----- whole runs -----

  /** Between two checks the pointer moves by no more than 1024 and one further move. */
  lemma NearStep(text: string, host: Host, len: nat, max: nat, graph: Graph, notes: Notes, s0: State, b: nat, i: nat,
                 s: State, e: Ins)
    requires Justified(text, host, graph, notes, b, i, e) && Matches(text, len, s0, notes, Running(b, i, s))
    requires CountOk(e, max) && Near(len, max + 1, s)
    ensures var t := Execute(e, host, len, b, i, s); !t.Stuck? && Near(len, max + 1, t.s)
  {
    hide DataEffect, SameEffect, Advances, Reaches, Silent, GoesTo, Astray, DriftAllows, FromWord;
    if IsData(e.stencil) {
      DataPointer(e, host, s);
      DataDrift(text, host, graph, notes, b, i, e);
      DriftNear(e, notes[(b, i)].drift);
    }
  }

  /** Every step of the compiled code on the machine is the step on the tape. */
  lemma {:induction false} MachineTogether(source: string, host: Host, base: Word, len: nat, s: State, c: Cpu,
                                           notes: Notes, n: nat)
    requires s.ptr == 0 && SizesOk(len, source) && Agrees(base, len, c, s, c)
    requires Program(Effective(source, 0), host, Compiled(source, host), notes)
    requires GraphCounts(Compiled(source, host), |source|)
    ensures var t := TargetAt(Compiled(source, host), host, len, s, n);
      && Together(base, len, c, t, CpuAt(Compiled(source, host), host, c, n))
      && !t.Stuck? && Near(len, |source| + 1, t.s)
  {
    hide Agrees, Program, Compiled, Effective, GraphCounts, Execute, CpuExecute, Together;
    var (text, graph) := (Effective(source, 0), Compiled(source, host));
    if n == 0 {
      StartsTogether(base, len, c, s);
    } else {
      MachineTogether(source, host, base, len, s, c, notes, n - 1);
      var t, r := TargetAt(graph, host, len, s, n - 1), CpuAt(graph, host, c, n - 1);
      RunMatches(text, host, len, graph, notes, s, n - 1);
      StepTogether(text, host, base, len, |source|, graph, notes, s, c, t, r);
    }
  }

  lemma StartsTogether(base: Word, len: nat, c: Cpu, s: State)
    requires Agrees(base, len, c, s, c)
    ensures Together(base, len, c, Running(0, 0, s), Going(0, 0, c))
  {
    hide Agrees;
  }

  lemma CountAt(graph: Graph, max: nat, b: nat, i: nat)
    requires GraphCounts(graph, max) && HasCode(graph, b, i)
    ensures CountOk(graph[b][i], max)
  {
  }

  lemma StepTogether(text: string, host: Host, base: Word, len: nat, max: nat, graph: Graph, notes: Notes, s0: State,
                     c0: Cpu, t: Target, r: CpuRun)
    requires Program(text, host, graph, notes) && Matches(text, len, s0, notes, t) && Together(base, len, c0, t, r)
    requires GraphCounts(graph, max) && !t.Stuck? && Near(len, max + 1, t.s)
    requires len + 2 * PADDING <= MAX_LENGTH && len + 1024 + max + 1 < WORD
    ensures var t' := TargetStep(graph, host, len, t);
      && Together(base, len, c0, t', CpuStep(graph, host, r))
      && !t'.Stuck? && Near(len, max + 1, t'.s)
  {
    hide Agrees, Program, GraphCounts, Justified, Execute, CpuExecute, OperandsOk, Touches;
    if t.Running? {
      NotedAt(text, len, s0, notes, t);
      NotedJustified(text, host, graph, notes, t.block, t.index);
      var e := graph[t.block][t.index];
      CountAt(graph, max, t.block, t.index);
      NearStep(text, host, len, max, graph, notes, s0, t.block, t.index, t.s, e);
      JustifiedOperands(text, host, graph, notes, t.block, t.index, e);
      forall x | x in Touches(e, host, len, t.s) ensures Padded(len, x) {
        TouchesNearTape(text, host, len, graph, notes, s0, t, x);
      }
      ExecuteTogether(e, host, base, len, max + 1, c0, t.block, t.index, t.s, r.c);
    }
  }

  lemma NotedAt(text: string, len: nat, s0: State, notes: Notes, t: Target)
    requires Matches(text, len, s0, notes, t) && t.Running?
    ensures (t.block, t.index) in notes
  {
  }

  lemma JustifiedOperands(text: string, host: Host, graph: Graph, notes: Notes, b: nat, i: nat, e: Ins)
    requires Justified(text, host, graph, notes, b, i, e)
    ensures OperandsOk(e, host)
  {
    hide OperandsOk, SameEffect, GoesTo, Silent;
  }

  /** On registers and memory, compiled code runs step by step as it does on the tape: it never accesses anything that
      is not allocated, the third register holds the pointer, the other registers and all other memory never change. */
  lemma MachineFollows(source: string, host: Host, base: Word, len: nat, s: State, c: Cpu, n: nat)
    requires s.ptr == 0 && SizesOk(len, source) && Agrees(base, len, c, s, c)
    ensures var r := CpuAt(Compiled(source, host), host, c, n);
      match TargetAt(Compiled(source, host), host, len, s, n)
      case Running(b, i, t) => r.Going? && r.block == b && r.index == i && Agrees(base, len, c, t, r.c)
      case Returned(v, t) => r.Gone? && r.value == Wrap(v) && Agrees(base, len, c, t, r.c)
      case Stuck => false
  {
    hide Agrees, Program, Compiled, Effective, GraphCounts;
    var notes := GeneratedProgram(source, host);
    CompiledIs(source, host);
    GeneratedCounts(source, host);
    MachineTogether(source, host, base, len, s, c, notes, n);
  }

  /** The compiled function, called on the machine `c`, returns `value` and leaves `d`. */
  ghost predicate CpuReturns(source: string, host: Host, c: Cpu, value: Word, d: Cpu) {
    exists n: nat :: CpuAt(Compiled(source, host), host, c, n) == Gone(value, d)
  }

  /** If the source run ends without leaving the tape, the function returns zero, and has left the tape, the input and
      the output as the source does. */
  lemma DoneOnMachine(source: string, host: Host, base: Word, len: nat, s: State, c: Cpu, t: State) returns (d: Cpu)
    requires s.ptr == 0 && SizesOk(len, source) && Agrees(base, len, c, s, c)
    requires Terminates(source, s, t) && !Leaves(source, len, s)
    ensures CpuReturns(source, host, c, 0, d) && Agrees(base, len, c, t, d)
  {
    hide Agrees, Compiled, Leaves, Terminates, CpuAt, TargetAt;
    var graph := Compiled(source, host);
    DoneInsideMeansZero(source, host, len, s, t);
    var n: nat :| TargetAt(graph, host, len, s, n) == Returned(0, t);
    MachineFollows(source, host, base, len, s, c, n);
    d := CpuAt(graph, host, c, n).c;
    assert CpuReturns(source, host, c, 0, d);
  }

  /** If the function returns zero, the source run ends in the state that the machine is left in, with the pointer on
      the tape.  If it returns anything else, that is -1, and the source pointer has left the tape. */
  lemma ResultOnMachine(source: string, host: Host, base: Word, len: nat, s: State, c: Cpu, value: Word, d: Cpu)
    returns (t: State)
    requires s.ptr == 0 && SizesOk(len, source) && Agrees(base, len, c, s, c)
    requires CpuReturns(source, host, c, value, d)
    ensures Agrees(base, len, c, t, d)
    ensures value == 0 ==> Terminates(source, s, t) && InTape(len, t)
    ensures value != 0 ==> value == Wrap(-1) && Leaves(source, len, s)
  {
    hide Agrees, Compiled, Leaves, Terminates, CpuAt, TargetAt;
    var graph := Compiled(source, host);
    var n: nat :| CpuAt(graph, host, c, n) == Gone(value, d);
    MachineFollows(source, host, base, len, s, c, n);
    var r := TargetAt(graph, host, len, s, n);
    t := r.s;
    assert Returns(graph, host, len, s, r.value, t);
    if r.value == 0 {
      ZeroMeansDone(source, host, len, s, t);
    } else {
      PanicMeansAstray(source, host, len, s, r.value, t);
    }
  }
}
