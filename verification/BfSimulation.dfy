/** Notes on compiled code: which source position each stencil stands for, and how far the pointer
    may have drifted from the tape.  A note is justified by one stencil at a time; the
    justified notes of a whole graph give the simulation of the source. */
module BfSimulation {
  import opened BfSource
  import opened Words
  import opened BfParser
  import opened BfMeaning
  import opened BfTarget
  import opened Locations
  import opened Wrappers

  /** `At(pos, drift)`: the source is at `pos`, and moving the pointer back by `drift` would put it
      into the tape.  `Panic`: the source pointer is outside the tape. */
  datatype Note = At(pos: nat, drift: Option<int>) | Panic

  type Notes = map<(nat, nat), Note>

  ghost predicate IsAt(notes: Notes, block: nat, index: nat, pos: nat, drift: Option<int>) {
    (block, index) in notes && notes[(block, index)] == At(pos, drift)
  }

  /** Data goes on at `pos'` with the same effect on both machines. */
  ghost predicate SameEffect(text: string, pos: nat, pos': nat, e: Ins, host: Host) {
    OperandsOk(e, host) && IsData(e.stencil) &&
    forall s: State :: Advances(text, pos, s, pos', DataEffect(e, host, s))
  }

  /** A cell that is touched is fewer than 2048 cells away from the tape, and the pointer at most 1024 before a move. */
  predicate DriftAllows(e: Ins, drift: Option<int>)
    requires |e.holes| == HoleCount(e.stencil)
  {
    && drift.Some? && Abs(drift.value) <= 1024
    && (e.stencil == ADD_TO ==> Abs(FromWord(e.holes[0])) < 1024)
  }

  function PointerMove(e: Ins): int
    requires |e.holes| == HoleCount(e.stencil)
  {
    match e.stencil
    case LEFT1 => -1
    case LEFTN => var n: int := e.holes[0]; -n
    case RIGHT1 => 1
    case RIGHTN => e.holes[0]
    case _ => 0
  }

  ghost predicate GoesTo(text: string, pos: nat, notes: Notes, block: nat, index: nat, jump: JumpTarget, zero: bool) {
    var (b, i) := match jump case NextStencil => (block, index + 1) case Target(t) => (t, 0);
    (b, i) in notes && notes[(b, i)].At? && notes[(b, i)].drift in {None, Some(0)} &&
    forall s: State :: (Cell(s) == 0) == zero ==> Advances(text, pos, s, notes[(b, i)].pos, s)
  }

  ghost predicate Panics(notes: Notes, jump: JumpTarget) {
    jump.Target? && (jump.block, 0) in notes && notes[(jump.block, 0)].Panic?
  }

  predicate BeginsLoop(code: Graph, block: nat) {
    block < |code| && code[block] != [] && code[block][0].stencil == IF_ZERO
  }

  /** The stencil `e` at `(block, index)` is justified by the notes on it and on its successors. */
  ghost predicate Justified(text: string, host: Host, code: Graph, notes: Notes, block: nat, index: nat, e: Ins) {
    && (block, index) in notes && OperandsOk(e, host)
    && var here := notes[(block, index)];
    if here.Panic? then e.stencil == RET && e.holes[0] == Wrap(-1)
    else match e.stencil
      case RET => e.holes[0] == 0 && here.drift == Some(0) && Silent(text, here.pos, |text|)
      case CHECK => e.jumps[0] == NextStencil && IsAt(notes, block, index + 1, here.pos, Some(0))
        && Panics(notes, e.jumps[1])
      case IF_ZERO =>
        && here.pos < |text| && Panics(notes, e.jumps[2])
        && GoesTo(text, here.pos, notes, block, index, e.jumps[0], true)
        && GoesTo(text, here.pos, notes, block, index, e.jumps[1], false)
      case JMP =>
        && e.jumps[0].Target? && BeginsLoop(code, e.jumps[0].block)
        && (e.jumps[0].block, 0) in notes && notes[(e.jumps[0].block, 0)].At?
          && notes[(e.jumps[0].block, 0)].drift == None
        && Silent(text, here.pos, notes[(e.jumps[0].block, 0)].pos)
      case _ =>
        && here.pos < |text| && DriftAllows(e, here.drift)
        && (block, index + 1) in notes && notes[(block, index + 1)].At?
        && SameEffect(text, here.pos, notes[(block, index + 1)].pos, e, host)
        && (notes[(block, index + 1)].drift == None
            || (here.drift.Some? && notes[(block, index + 1)].drift == Some(here.drift.value + PointerMove(e))))
  }

  ghost predicate AllJustified(text: string, host: Host, code: Graph, notes: Notes) {
    forall b: nat, i: nat :: HasCode(code, b, i) ==> Justified(text, host, code, notes, b, i, code[b][i])
  }

  /** Notes on a whole program: every noted place has code, and the entry is at the start of the text. */
  ghost predicate Program(text: string, host: Host, code: Graph, notes: Notes) {
    && AllJustified(text, host, code, notes)
    && (forall b, i :: (b, i) in notes ==> HasCode(code, b, i))
    && IsAt(notes, 0, 0, 0, Some(0))
  }

  // ----- the simulation -----

  ghost predicate DriftOk(len: nat, s: State, drift: Option<int>) {
    drift.Some? ==> 0 <= s.ptr - drift.value < len
  }

  /** The source, started in `s0`, is outside the tape in the state `s`. */
  ghost predicate Astray(text: string, len: nat, s0: State, s: State) {
    !InTape(len, s) && exists pos: nat :: Reaches(text, 0, s0, pos, s)
  }

  ghost predicate Matches(text: string, len: nat, s0: State, notes: Notes, t: Target) {
    match t
    case Running(b, i, s) =>
      (b, i) in notes &&
      (match notes[(b, i)]
       case At(pos, drift) => Reaches(text, 0, s0, pos, s) && DriftOk(len, s, drift)
       case Panic => Astray(text, len, s0, s))
    case Returned(value, s) =>
      if value == 0 then InTape(len, s) && Reaches(text, 0, s0, |text|, s)
      else value == Wrap(-1) && Astray(text, len, s0, s)
    case Stuck => false
  }

  lemma DataPointer(e: Ins, host: Host, s: State)
    requires IsData(e.stencil) && OperandsOk(e, host)
    ensures DataEffect(e, host, s).ptr == s.ptr + PointerMove(e)
  {
  }

  /** One step of a data stencil. */
  lemma DataStep(text: string, host: Host, len: nat, code: Graph, notes: Notes, s0: State, b: nat, i: nat, s: State,
                 e: Ins)
    requires Justified(text, host, code, notes, b, i, e) && notes[(b, i)].At? && IsData(e.stencil)
    requires Matches(text, len, s0, notes, Running(b, i, s))
    ensures Matches(text, len, s0, notes, Execute(e, host, len, b, i, s))
  {
    hide Silent, Reaches, Advances, DataEffect, GoesTo;
    var pos, pos', s' := notes[(b, i)].pos, notes[(b, i + 1)].pos, DataEffect(e, host, s);
    assert Advances(text, pos, s, pos', s');
    AdvancesReaches(text, pos, s, pos', s');
    ReachesTrans(text, 0, s0, pos, s, pos', s');
    DataPointer(e, host, s);
  }

  /** One step of a conditional jump into or out of a loop. */
  lemma LoopStep(text: string, host: Host, len: nat, code: Graph, notes: Notes, s0: State, b: nat, i: nat, s: State,
                 e: Ins)
    requires Justified(text, host, code, notes, b, i, e) && notes[(b, i)].At? && e.stencil == IF_ZERO
    requires Matches(text, len, s0, notes, Running(b, i, s))
    ensures Matches(text, len, s0, notes, Execute(e, host, len, b, i, s))
  {
    hide Silent, Reaches, Advances, DataEffect, SameEffect;
    var pos := notes[(b, i)].pos;
    if InTape(len, s) {
      var jump := e.jumps[if Cell(s) == 0 then 0 else 1];
      assert GoesTo(text, pos, notes, b, i, jump, Cell(s) == 0);
      var (c, j) := match jump case NextStencil => (b, i + 1) case Target(t) => (t, 0);
      AdvancesReaches(text, pos, s, notes[(c, j)].pos, s);
      ReachesTrans(text, 0, s0, pos, s, notes[(c, j)].pos, s);
    }
  }

  /** One step of an unconditional jump, a check or a return. */
  lemma ControlStep(text: string, host: Host, len: nat, code: Graph, notes: Notes, s0: State, b: nat, i: nat, s: State,
                    e: Ins)
    requires Justified(text, host, code, notes, b, i, e) && notes[(b, i)].At? && e.stencil in {RET, CHECK, JMP}
    requires Matches(text, len, s0, notes, Running(b, i, s))
    ensures Matches(text, len, s0, notes, Execute(e, host, len, b, i, s))
  {
    hide Silent, Reaches, Advances, DataEffect, SameEffect, GoesTo;
    var pos := notes[(b, i)].pos;
    match e.stencil
    case RET => SilentReaches(text, s0, pos, s, |text|);
    case CHECK =>
    case JMP => SilentReaches(text, s0, pos, s, notes[(e.jumps[0].block, 0)].pos);
  }

  lemma StepMatches(text: string, host: Host, len: nat, code: Graph, notes: Notes, s0: State, t: Target)
    requires Program(text, host, code, notes) && Matches(text, len, s0, notes, t)
    ensures Matches(text, len, s0, notes, TargetStep(code, host, len, t))
  {
    if t.Running? {
      hide Silent, Reaches, Advances, DataEffect, SameEffect, GoesTo, Astray;
      var (b, i, s, e) := (t.block, t.index, t.s, code[t.block][t.index]);
      assert Justified(text, host, code, notes, b, i, e);
      if notes[(b, i)].At? {
        hide Justified, Matches, Execute, OperandsOk;
        if e.stencil == IF_ZERO {
          LoopStep(text, host, len, code, notes, s0, b, i, s, e);
        } else if IsData(e.stencil) {
          DataStep(text, host, len, code, notes, s0, b, i, s, e);
        } else {
          ControlStep(text, host, len, code, notes, s0, b, i, s, e);
        }
      }
    }
  }

  lemma SilentReaches(text: string, s0: State, a: nat, s: State, b: nat)
    requires Reaches(text, 0, s0, a, s) && Silent(text, a, b)
    ensures Reaches(text, 0, s0, b, s)
  {
    ReachesTrans(text, 0, s0, a, s, b, s);
  }

  /** At every step, the graph is where its notes say the source is. */
  lemma {:induction false} RunMatches(text: string, host: Host, len: nat, code: Graph, notes: Notes, s0: State, n: nat)
    requires Program(text, host, code, notes) && InTape(len, s0) && s0.ptr == 0
    ensures Matches(text, len, s0, notes, TargetAt(code, host, len, s0, n))
  {
    if n == 0 {
      ReachesSelf(text, 0, s0);
    } else {
      RunMatches(text, host, len, code, notes, s0, n - 1);
      StepMatches(text, host, len, code, notes, s0, TargetAt(code, host, len, s0, n - 1));
    }
  }

  /** The bound on the padding: no stencil touches a cell 2048 or more away from the tape. */
  lemma TouchesNearTape(text: string, host: Host, len: nat, code: Graph, notes: Notes, s0: State, t: Target, x: int)
    requires Program(text, host, code, notes) && Matches(text, len, s0, notes, t)
    requires t.Running?
    requires var e := code[t.block][t.index]; OperandsOk(e, host) && x in Touches(e, host, len, t.s)
    ensures -2048 < x < len + 2048
  {
    hide Silent, Reaches, Advances, DataEffect, GoesTo, SameEffect, Justified, DriftAllows, Program;
    NotedJustified(text, host, code, notes, t.block, t.index);
    var e := code[t.block][t.index];
    if e.stencil == IF_ZERO || !IsData(e.stencil) {
      assert x == t.s.ptr && InTape(len, t.s);
    } else {
      DataDrift(text, host, code, notes, t.block, t.index, e);
      var drift := notes[(t.block, t.index)].drift;
      DriftNear(e, drift);
      assert 0 <= t.s.ptr - drift.value < len;
    }
  }

  lemma NotedJustified(text: string, host: Host, code: Graph, notes: Notes, b: nat, i: nat)
    requires Program(text, host, code, notes) && (b, i) in notes
    ensures HasCode(code, b, i) && Justified(text, host, code, notes, b, i, code[b][i])
  {
    hide Justified;
  }

  lemma DataDrift(text: string, host: Host, code: Graph, notes: Notes, b: nat, i: nat, e: Ins)
    requires Justified(text, host, code, notes, b, i, e) && IsData(e.stencil)
    ensures notes[(b, i)].At? && DriftAllows(e, notes[(b, i)].drift)
  {
    hide SameEffect, GoesTo, Silent;
  }

  lemma DriftNear(e: Ins, drift: Option<int>)
    requires |e.holes| == HoleCount(e.stencil) && DriftAllows(e, drift)
    ensures drift.Some? && -1024 <= drift.value <= 1024
    ensures e.stencil == ADD_TO ==> -1024 < FromWord(e.holes[0]) < 1024
  {
    hide FromWord;
  }
}
