/** The code generator emits only justified code: its output carries notes that make it a `Program`. */
module BfNotes {
  import opened BfSource
  import opened Words
  import opened BfParser
  import opened BfMeaning
  import opened BfShape
  import opened BfTarget
  import opened BfCodegen
  import opened BfSimulation
  import opened Locations
  import opened Wrappers

  // ----- growing code and notes -----

  ghost predicate Grows(code: Graph, code': Graph) {
    |code'| == |code| && forall b :: 0 <= b < |code| ==> code[b] <= code'[b]
  }

  ghost predicate Adds(notes: Notes, notes': Notes) {
    forall k :: k in notes ==> k in notes' && notes'[k] == notes[k]
  }

  lemma AddsSelf(notes: Notes)
    ensures Adds(notes, notes)
  {
  }

  lemma AddsTrans(a: Notes, b: Notes, c: Notes)
    requires Adds(a, b) && Adds(b, c)
    ensures Adds(a, c)
  {
  }

  lemma JustifiedStays(text: string, host: Host, code: Graph, notes: Notes, code': Graph, notes': Notes, b: nat,
                       i: nat, e: Ins)
    requires Justified(text, host, code, notes, b, i, e) && Grows(code, code') && Adds(notes, notes')
    ensures Justified(text, host, code', notes', b, i, e)
  {
    hide Silent, Advances, SameEffect;
    assert (b, i) in notes' && notes'[(b, i)] == notes[(b, i)];
    if notes[(b, i)].At? && e.stencil == IF_ZERO {
      assert GoesTo(text, notes[(b, i)].pos, notes', b, i, e.jumps[0], true);
      assert GoesTo(text, notes[(b, i)].pos, notes', b, i, e.jumps[1], false);
    }
  }

  /** The end of the current block is noted, and the other noted places without code are the
      tails in `pend` and the panic block. */
  ghost predicate Placed(panic: nat, g: Gen, pend: set<nat>, notes: Notes, pos: nat, drift: Option<int>) {
    && g.cur < |g.code| && g.cur != panic && g.hi <= panic < |g.code| && !(g.lo <= g.cur < g.hi)
    && (forall b :: g.lo <= b < g.hi ==> g.code[b] == [])
    && (panic, 0) in notes && notes[(panic, 0)] == Panic && g.code[panic] == []
    && IsAt(notes, g.cur, |g.code[g.cur]|, pos, drift)
    && (forall b, i :: (b, i) in notes ==>
          && b < |g.code| && !(g.lo <= b < g.hi)
          && (HasCode(g.code, b, i) || (b == g.cur && i == |g.code[b]|) || (i == 0 && (b == panic || b in pend))))
  }

  /** The invariant of the generator: all code so far is justified. */
  ghost predicate Noted(text: string, host: Host, panic: nat, g: Gen, pend: set<nat>, notes: Notes, pos: nat,
                        drift: Option<int>) {
    AllJustified(text, host, g.code, notes) && Placed(panic, g, pend, notes, pos, drift)
  }

  /** Code stays justified when it grows by justified stencils. */
  lemma AllJustifiedGrows(text: string, host: Host, code: Graph, notes: Notes, code': Graph, notes': Notes)
    requires AllJustified(text, host, code, notes) && Grows(code, code') && Adds(notes, notes')
    requires forall b: nat, i: nat :: HasCode(code', b, i) && !HasCode(code, b, i) ==>
      Justified(text, host, code', notes', b, i, code'[b][i])
    ensures AllJustified(text, host, code', notes')
  {
    hide Justified;
    forall b: nat, i: nat | HasCode(code', b, i) ensures Justified(text, host, code', notes', b, i, code'[b][i]) {
      if HasCode(code, b, i) {
        JustifiedStays(text, host, code, notes, code', notes', b, i, code[b][i]);
      }
    }
  }

  /** Appending one justified stencil to the current block. */
  lemma Emits(text: string, host: Host, panic: nat, g: Gen, pend: set<nat>, notes: Notes, pos: nat, drift: Option<int>,
              e: Ins, pos': nat, drift': Option<int>) returns (r: Gen, notes': Notes)
    requires Noted(text, host, panic, g, pend, notes, pos, drift)
    requires Justified(text, host, g.code, notes[(g.cur, |g.code[g.cur]| + 1) := At(pos', drift')], g.cur,
        |g.code[g.cur]|, e)
    ensures r == g.(code := Append(g.code, g.cur, [e]))
    ensures Adds(notes, notes') && Noted(text, host, panic, r, pend, notes', pos', drift')
  {
    hide Justified, AllJustified;
    r := g.(code := Append(g.code, g.cur, [e]));
    var n := |g.code[g.cur]|;
    notes' := notes[(g.cur, n + 1) := At(pos', drift')];
    assert !HasCode(g.code, g.cur, n + 1);
    assert (g.cur, n + 1) !in notes;
    AddsSelf(notes');
    JustifiedStays(text, host, g.code, notes', r.code, notes', g.cur, n, e);
    AllJustifiedGrows(text, host, g.code, notes, r.code, notes');
  }

  // ----- leaves -----

  /** The stencil of an operation does what the operation does, and touches cells near the pointer. */
  lemma OpStencil(op: Op, host: Host, e: Ins)
    requires OpCode(op, host) == [e]
    requires op.AddTo? ==> Abs(op.n) < 1024
    ensures OperandsOk(e, host) && IsData(e.stencil)
    ensures forall s: State :: DataEffect(e, host, s) == Effect(op, s)
    ensures forall drift: int :: Abs(drift) <= 1024 ==> DriftAllows(e, Some(drift))
    ensures !op.AddTo? ==> PointerMove(e) == Movement(op)
  {
    assert [e][0] == e;
    forall s: State ensures DataEffect(e, host, s) == Effect(op, s) {
      OpStencilEffect(op, host, e, s);
    }
  }

  lemma OpStencilEffect(op: Op, host: Host, e: Ins, s: State)
    requires OpCode(op, host) == [e] && OperandsOk(e, host) && IsData(e.stencil)
    requires op.AddTo? ==> Abs(op.n) < 1024
    ensures DataEffect(e, host, s) == Effect(op, s)
  {
    hide Store, CellAt, OperandsOk;
    assert [e][0] == e;
    match op
    case IncDec(n) => CountEffect(n, host, e, s);
    case LeftRight(n) =>
    case In =>
    case Out =>
    case SetZero =>
    case AddTo(n) => assert FromWord(Wrap(n)) == n;
  }

  lemma CountEffect(n: int, host: Host, e: Ins, s: State)
    requires OpCode(IncDec(n), host) == [e] && OperandsOk(e, host) && IsData(e.stencil)
    ensures DataEffect(e, host, s) == Effect(IncDec(n), s)
  {
    hide Store, CellAt, OperandsOk, Cell;
    assert [e][0] == e;
    StoreCount(s, Abs(n));
  }

  lemma StoreCount(s: State, n: nat)
    ensures Store(s, s.ptr, Cell(s) + n % 256) == Store(s, s.ptr, Cell(s) + n)
    ensures Store(s, s.ptr, Cell(s) - n % 256) == Store(s, s.ptr, Cell(s) - n)
  {
    hide Store, CellAt, Cell;
    ModuloSum(Cell(s), n);
    SameModulo(s, s.ptr, Cell(s) + n % 256, Cell(s) + n);
    SameModulo(s, s.ptr, Cell(s) - n % 256, Cell(s) - n);
  }

  lemma ModuloSum(c: int, n: nat)
    ensures (c + n % 256) % 256 == (c + n) % 256
    ensures (c - n % 256) % 256 == (c - n) % 256
  {
    ModuloAdd(c + n % 256, n / 256);
    ModuloAdd(c - n % 256, -(n / 256));
    assert n == 256 * (n / 256) + n % 256;
  }

  lemma ModuloAdd(c: int, k: int)
    ensures (c + 256 * k) % 256 == c % 256
  {
    DivUnique(c + 256 * k, 256, c / 256 + k, c % 256);
  }

  /** Counts of zero need no stencil. */
  lemma OpNothing(text: string, a: nat, b: nat, op: Op, host: Host)
    requires OpCode(op, host) == [] && Performs(text, a, b, op)
    ensures Silent(text, a, b) && Movement(op) == 0
  {
    forall s: State ensures Reaches(text, a, s, b, s) {
      assert Effect(op, s) == s by {
        if op.IncDec? {
          StoreSame(s, s.ptr);
        }
      }
      AdvancesReaches(text, a, s, b, Effect(op, s));
    }
  }

  lemma SilentBefore(text: string, a: nat, b: nat)
    requires Silent(text, a, b) && b < |text|
    ensures a < |text|
  {
    var s := State(map[], 0, [], []);
    assert Reaches(text, a, s, b, s);
    var n: nat :| ReachesIn(text, a, s, b, s, n);
    if a >= |text| {
      HaltedStays(text, Config(a, s), n);
    }
  }

  lemma PerformsBefore(text: string, a: nat, b: nat, op: Op)
    requires Performs(text, a, b, op)
    ensures a < |text|
  {
    var s := State(map[], 0, [], []);
    assert Advances(text, a, s, b, Effect(op, s));
  }

  lemma EmitsOp(text: string, host: Host, panic: nat, g: Gen, pend: set<nat>, notes: Notes, pos: nat, drift: int,
                a: nat, b: nat, op: Op) returns (r: Gen, notes': Notes, pos': nat, drift': Option<int>)
    requires Noted(text, host, panic, g, pend, notes, pos, Some(drift)) && Abs(drift) <= 1024
    requires Silent(text, pos, a) && Performs(text, a, b, op) && (op.AddTo? ==> Abs(op.n) < 1024)
    ensures r == g.(code := Append(g.code, g.cur, OpCode(op, host)))
    ensures Adds(notes, notes') && Noted(text, host, panic, r, pend, notes', pos', drift') && Silent(text, pos', b)
    ensures drift' == if op.AddTo? then None else Some(drift + Movement(op))
  {
    hide Noted, AllJustified;
    if OpCode(op, host) == [] {
      OpNothing(text, a, b, op, host);
      SilentTrans(text, pos, a, b);
      r, notes', pos', drift' := g, notes, pos, Some(drift);
      NotedCur(text, host, panic, g, pend, notes, pos, Some(drift));
      AppendNothing(g.code, g.cur);
    } else {
      var e := OpCode(op, host)[0];
      assert OpCode(op, host) == [e];
      OpStencil(op, host, e);
      SilentPerforms(text, pos, a, b, op);
      PerformsBefore(text, pos, b, op);
      pos', drift' := b, if op.AddTo? then None else Some(drift + Movement(op));
      NotedCur(text, host, panic, g, pend, notes, pos, Some(drift));
      assert SameEffect(text, pos, b, e, host);
      r, notes' := Emits(text, host, panic, g, pend, notes, pos, Some(drift), e, pos', drift');
      SilentSelf(text, b);
    }
  }

  lemma NotedCur(text: string, host: Host, panic: nat, g: Gen, pend: set<nat>, notes: Notes, pos: nat,
                 drift: Option<int>)
    requires Noted(text, host, panic, g, pend, notes, pos, drift)
    ensures !(g.lo <= g.cur < g.hi)
    ensures g.cur < |g.code| && IsAt(notes, g.cur, |g.code[g.cur]|, pos, drift)
    ensures (panic, 0) in notes && notes[(panic, 0)] == Panic
    ensures panic < |g.code| && g.cur != panic && g.hi <= panic
  {
  }

  lemma EmitsCheck(text: string, host: Host, panic: nat, g: Gen, pend: set<nat>, notes: Notes, pos: nat,
                   drift: Option<int>)
    returns (r: Gen, notes': Notes)
    requires Noted(text, host, panic, g, pend, notes, pos, drift)
    ensures r == g.(code := Append(g.code, g.cur, [CheckIns(panic)]))
    ensures Adds(notes, notes') && Noted(text, host, panic, r, pend, notes', pos, Some(0))
  {
    hide Noted, AllJustified;
    NotedCur(text, host, panic, g, pend, notes, pos, drift);
    r, notes' := Emits(text, host, panic, g, pend, notes, pos, drift, CheckIns(panic), pos, Some(0));
  }

  lemma OpNoted(text: string, host: Host, panic: nat, g: Gen, pend: set<nat>, notes: Notes, pos: nat, movement: int,
                a: nat, b: nat, op: Op) returns (r: Gen, notes': Notes, pos': nat, drift': Option<int>)
    requires Noted(text, host, panic, g, pend, notes, pos, Some(movement)) && Abs(movement) <= 1024
    requires Silent(text, pos, a) && Performs(text, a, b, op) && (op.AddTo? ==> Abs(op.n) < 1024)
    ensures r == g.(code := Append(g.code, g.cur, StepCode(movement, op, host, panic)))
    ensures Adds(notes, notes') && Noted(text, host, panic, r, pend, notes', pos', drift') && Silent(text, pos', b)
    ensures !op.AddTo? ==>
      drift' == Some(if Abs(movement + Movement(op)) > 1024 then 0 else movement + Movement(op))
  {
    hide Noted, Silent, Performs, OpCode, Append, IsAt, CheckIns, Adds, Movement;
    NotedCur(text, host, panic, g, pend, notes, pos, Some(movement));
    r, notes', pos', drift' := EmitsOp(text, host, panic, g, pend, notes, pos, movement, a, b, op);
    if Abs(movement + Movement(op)) > 1024 {
      var notes2 := notes';
      r, notes' := EmitsCheck(text, host, panic, r, pend, notes2, pos', drift');
      drift' := Some(0);
      AddsTrans(notes, notes2, notes');
      AppendTwice(g.code, g.cur, OpCode(op, host), [CheckIns(panic)]);
    } else {
      assert OpCode(op, host) + [] == OpCode(op, host);
    }
  }

  /** The code of a leaf: between two checks the drift is the movement, until a transfer ends the leaf. */
  lemma {:induction false} LeafNoted(text: string, host: Host, panic: nat, g: Gen, pend: set<nat>, notes: Notes,
                                     pos: nat,
                                     a: nat, ops: seq<Op>, marks: seq<nat>, n: nat, max: nat)
    returns (r: Gen, notes': Notes, pos': nat, drift': Option<int>)
    requires Noted(text, host, panic, g, pend, notes, pos, Some(0)) && Silent(text, pos, a)
    requires |marks| == |ops| + 1 && marks[0] == a && LeafShape(ops, max) && n <= |ops|
    requires forall i :: 0 <= i < |ops| ==> Performs(text, marks[i], marks[i + 1], ops[i])
    ensures r == g.(code := Append(g.code, g.cur, LeafCode(ops[..n], host, panic).0))
    ensures Adds(notes, notes') && Noted(text, host, panic, r, pend, notes', pos', drift')
    ensures Silent(text, pos', marks[n])
    ensures n < |ops| ==> drift' == Some(LeafCode(ops[..n], host, panic).1)
    ensures Abs(LeafCode(ops[..n], host, panic).1) <= 1024
    decreases n
  {
    hide Noted, Silent, Performs, OpCode, Append, IsAt, CheckIns, Adds, LeafCode, StepCode;
    if n == 0 {
      LeafCodeNone(host, panic);
      AddsSelf(notes);
      NotedCur(text, host, panic, g, pend, notes, pos, Some(0));
      r, notes', pos', drift' := g, notes, pos, Some(0);
      assert ops[..0] == [];
      AppendNothing(g.code, g.cur);
    } else {
      var op, prefix := ops[n - 1], ops[..n - 1];
      var g1, notes1, pos1, drift1 := LeafNoted(text, host, panic, g, pend, notes, pos, a, ops, marks, n - 1, max);
      NotedCur(text, host, panic, g, pend, notes, pos, Some(0));
      LeafCodeStep(prefix, op, host, panic);
      assert prefix + [op] == ops[..n];
      r, notes', pos', drift' := OpNoted(text, host, panic, g1, pend, notes1, pos1, LeafCode(prefix, host, panic).1,
        marks[n - 1], marks[n], op);
      AddsTrans(notes, notes1, notes');
      AppendTwice(g.code, g.cur, LeafCode(prefix, host, panic).0,
        StepCode(LeafCode(prefix, host, panic).1, op, host, panic));
    }
  }

  // ----- loops -----

  /** Entering the loop at `text[a..b]`: the jump into its start block, and the test there. */
  lemma EntersLoop(text: string, host: Host, panic: nat, g: Gen, pend: set<nat>, notes: Notes, pos: nat,
                   drift: Option<int>,
                   a: nat, b: nat) returns (r: Gen, notes': Notes)
    requires Noted(text, host, panic, g, pend, notes, pos, drift) && Silent(text, pos, a) && IsLoop(text, a, b)
    requires Ready(g, IntoLoop, panic) && g.hi - 1 !in pend && g.lo !in pend
    ensures r == GenEvent(g, IntoLoop, host, panic) && Adds(notes, notes')
    ensures Noted(text, host, panic, r, pend + {g.hi - 1}, notes', a + 1, Some(0))
    ensures IsAt(notes', g.lo, 0, a, None) && IsAt(notes', g.hi - 1, 0, b, Some(0)) && r.code[g.hi - 1] == []
  {
    hide Silent, GoesTo, IsLoop, Advances, AllJustified, Placed, GenEvent, Justified;
    var next, tail := g.lo, g.hi - 1;
    r := GenEvent(g, IntoLoop, host, panic);
    notes' := notes[(next, 0) := At(a, None)][(next, 1) := At(a + 1, Some(0))][(tail, 0) := At(b, Some(0))];
    NotedCur(text, host, panic, g, pend, notes, pos, drift);
    EntersPlaced(host, panic, g, pend, notes, pos, drift, a, b);
    AddsAt(notes, notes', g.cur, |g.code[g.cur]|, pos, drift);
    JustifiedEntry(text, host, r.code, notes', panic, g.cur, |g.code[g.cur]|, pos, drift, a, b, next, tail);
    AllJustifiedGrows(text, host, g.code, notes, r.code, notes');
  }

  lemma JustifiedEntry(text: string, host: Host, code: Graph, notes: Notes, panic: nat, cur: nat, n: nat,
                       pos: nat, drift: Option<int>, a: nat, b: nat, next: nat, tail: nat)
    requires IsAt(notes, cur, n, pos, drift) && Silent(text, pos, a) && IsLoop(text, a, b)
    requires IsAt(notes, next, 0, a, None) && IsAt(notes, next, 1, a + 1, Some(0)) && IsAt(notes, tail, 0, b, Some(0))
    requires (panic, 0) in notes && notes[(panic, 0)] == Panic
    requires next < |code| && code[next] == [EnterIns(tail, panic)]
    ensures Justified(text, host, code, notes, cur, n, JmpIns(next))
    ensures Justified(text, host, code, notes, next, 0, EnterIns(tail, panic))
  {
    hide Silent, GoesTo, IsLoop;
    LoopTest(text, a, b, notes, next, tail);
    LoopLength(text, a, b);
  }

  lemma EntersPlaced(host: Host, panic: nat, g: Gen, pend: set<nat>, notes: Notes, pos: nat, drift: Option<int>,
                     a: nat, b: nat)
    requires Placed(panic, g, pend, notes, pos, drift)
    requires Ready(g, IntoLoop, panic) && g.hi - 1 !in pend && g.lo !in pend
    ensures var (next, tail) := (g.lo, g.hi - 1);
      var r := GenEvent(g, IntoLoop, host, panic);
      var notes' := notes[(next, 0) := At(a, None)][(next, 1) := At(a + 1, Some(0))][(tail, 0) := At(b, Some(0))];
      && Placed(panic, r, pend + {tail}, notes', a + 1, Some(0)) && Adds(notes, notes') && Grows(g.code, r.code)
      && next < |r.code| && tail < |r.code|
      && r.code[g.cur] == g.code[g.cur] + [JmpIns(next)] && r.code[next] == [EnterIns(tail, panic)]
        && r.code[tail] == []
      && notes'[(panic, 0)] == Panic && IsAt(notes', next, 0, a, None) && IsAt(notes', next, 1, a + 1, Some(0))
      && IsAt(notes', tail, 0, b, Some(0))
      && (forall c: nat, i: nat :: HasCode(r.code, c, i) && !HasCode(g.code, c, i) ==>
            (c == g.cur && i == |g.code[c]|) || (c == next && i == 0))
  {
  }

  lemma LoopTest(text: string, a: nat, b: nat, notes: Notes, next: nat, tail: nat)
    requires IsLoop(text, a, b) && IsAt(notes, next, 1, a + 1, Some(0)) && IsAt(notes, tail, 0, b, Some(0))
    ensures GoesTo(text, a, notes, next, 0, Target(tail), true)
    ensures GoesTo(text, a, notes, next, 0, NextStencil, false)
  {
    forall s: State | Cell(s) == 0 ensures Advances(text, a, s, b, s) {
      LoopSkip(text, a, b, s);
    }
    forall s: State | Cell(s) != 0 ensures Advances(text, a, s, notes[(next, 1)].pos, s) {
      AdvancesStep(text, a, s);
    }
  }

  /** The test at the end of a loop body goes on after the loop, or back to its start. */
  lemma LoopEndTest(text: string, pos: nat, a: nat, b: nat, notes: Notes, block: nat, index: nat, start: nat, tail: nat)
    requires IsLoop(text, a, b) && Silent(text, pos, b - 1)
    requires IsAt(notes, start, 0, a, None) && IsAt(notes, tail, 0, b, Some(0))
    ensures pos < |text|
    ensures GoesTo(text, pos, notes, block, index, Target(tail), true)
    ensures GoesTo(text, pos, notes, block, index, Target(start), false)
  {
    SilentBefore(text, pos, b - 1);
    forall s: State ensures Advances(text, pos, s, if Cell(s) == 0 then b else a, s) {
      AdvancesStep(text, b - 1, s);
      AdvancesReaches(text, b - 1, s, if Cell(s) == 0 then b else a, s);
      ReachesTrans(text, pos, s, b - 1, s, if Cell(s) == 0 then b else a, s);
    }
  }

  lemma LeavesLoop(text: string, host: Host, panic: nat, g: Gen, pend: set<nat>, notes: Notes, pos: nat,
                   drift: Option<int>,
                   a: nat, b: nat) returns (r: Gen)
    requires Noted(text, host, panic, g, pend, notes, pos, drift) && IsLoop(text, a, b) && Silent(text, pos, b - 1)
    requires Ready(g, OutOfLoop, panic)
    requires var (start, tail) := g.stack[|g.stack| - 1];
      && IsAt(notes, start, 0, a, None) && IsAt(notes, tail, 0, b, Some(0))
      && g.code[tail] == [] && tail in pend && tail != g.cur && tail != panic && !(g.lo <= tail < g.hi)
    ensures r == GenEvent(g, OutOfLoop, host, panic)
    ensures Noted(text, host, panic, r, pend - {g.stack[|g.stack| - 1].1}, notes, b, Some(0))
  {
    hide Silent, GoesTo, IsLoop, Advances, SameEffect, AllJustified;
    var (start, tail) := g.stack[|g.stack| - 1];
    r := GenEvent(g, OutOfLoop, host, panic);
    LeavesPlaced(host, panic, g, pend, notes, pos, drift, b);
    LoopEndTest(text, pos, a, b, notes, g.cur, |g.code[g.cur]|, start, tail);
    assert Justified(text, host, r.code, notes, g.cur, |g.code[g.cur]|, LeaveIns(start, tail, panic));
    AddsSelf(notes);
    hide Justified;
    AllJustifiedGrows(text, host, g.code, notes, r.code, notes);
  }

  lemma LeavesPlaced(host: Host, panic: nat, g: Gen, pend: set<nat>, notes: Notes, pos: nat, drift: Option<int>, b: nat)
    requires Placed(panic, g, pend, notes, pos, drift) && Ready(g, OutOfLoop, panic)
    requires var (start, tail) := g.stack[|g.stack| - 1];
      && IsAt(notes, tail, 0, b, Some(0)) && g.code[tail] == [] && tail in pend && tail != g.cur && tail != panic
      && !(g.lo <= tail < g.hi)
    ensures var (start, tail) := g.stack[|g.stack| - 1];
      var r := GenEvent(g, OutOfLoop, host, panic);
      && Placed(panic, r, pend - {tail}, notes, b, Some(0)) && Grows(g.code, r.code)
      && r.code[g.cur] == g.code[g.cur] + [LeaveIns(start, tail, panic)]
  {
  }

  // ----- trees -----

  /** Blocks that a visit may not touch keep their code. */
  ghost predicate Keeps(g: Gen, r: Gen) {
    |r.code| == |g.code| &&
    forall b :: 0 <= b < |g.code| && b != g.cur && !(g.lo <= b < g.hi) ==> r.code[b] == g.code[b]
  }

  ghost predicate Outside(pend: set<nat>, g: Gen) {
    forall b :: b in pend ==> !(g.lo <= b < g.hi) && b != g.cur
  }

  /** What visiting a tree that represents `text[a..b]` leads to. */
  ghost predicate Visited(text: string, host: Host, panic: nat, g: Gen, evs: seq<VisitOp>, loops: nat, pend: set<nat>,
                          notes: Notes,
                          b: nat, notes': Notes, pos': nat, drift': Option<int>)
  {
    && AllReady(g, evs, host, panic)
    && var r := GenAll(g, evs, host, panic);
    && Consumes(g, r, loops) && Keeps(g, r) && Adds(notes, notes')
    && Noted(text, host, panic, r, pend, notes', pos', drift') && Silent(text, pos', b)
  }

  lemma {:induction false} VisitNoted(bf: BF, text: string, a: nat, b: nat, max: nat, host: Host, panic: nat, g: Gen,
                                      pend: set<nat>, notes: Notes, pos: nat, drift: Option<int>)
    returns (notes': Notes, pos': nat, drift': Option<int>)
    requires Noted(text, host, panic, g, pend, notes, pos, drift) && Silent(text, pos, a) && Outside(pend, g)
    requires Represents(bf, text, a, b) && Shaped(bf, max)
    requires g.lo + 2 * Loops(bf) <= g.hi && (bf.Loop? || drift == Some(0))
    ensures Visited(text, host, panic, g, Visit(bf), Loops(bf), pend, notes, b, notes', pos', drift')
    ensures bf.Loop? ==> drift' == Some(0)
    decreases bf, 0
  {
    hide GenAll, AllReady, Noted, Silent;
    NotedCur(text, host, panic, g, pend, notes, pos, drift);
    match bf
    case Leaf(ops) =>
      var marks :| LeafMarks(text, a, b, ops, marks);
      var r;
      r, notes', pos', drift' := LeafNoted(text, host, panic, g, pend, notes, pos, a, ops, marks, |ops|, max);
      assert ops[..|ops|] == ops;
      SilentTrans(text, pos', marks[|ops|], b);
      GenOne(g, LeafOps(ops), host, panic);
    case Node(nodes) =>
      notes', pos', drift' := VisitAllNoted(nodes, text, a, b, max, host, panic, g, pend, notes, pos, drift);
    case Loop(body) =>
      notes', pos', drift' := VisitLoopNoted(body, text, a, b, max, host, panic, g, pend, notes, pos, drift);
  }

  lemma {:induction false} VisitLoopNoted(body: BF, text: string, a: nat, b: nat, max: nat, host: Host, panic: nat,
                                          g: Gen,
                                          pend: set<nat>, notes: Notes, pos: nat, drift: Option<int>)
    returns (notes': Notes, pos': nat, drift': Option<int>)
    requires Noted(text, host, panic, g, pend, notes, pos, drift) && Silent(text, pos, a) && Outside(pend, g)
    requires Represents(Loop(body), text, a, b) && Shaped(Loop(body), max)
    requires g.lo + 2 + 2 * Loops(body) <= g.hi
    ensures Visited(text, host, panic, g, Visit(Loop(body)), 1 + Loops(body), pend, notes, b, notes', pos', drift')
    ensures drift' == Some(0)
    decreases body, 1
  {
    hide GenAll, AllReady, Noted, Silent, Adds, IsLoop, IsAt, GenEvent, Consumes, Keeps;
    NotedCur(text, host, panic, g, pend, notes, pos, drift);
    var next, tail := g.lo, g.hi - 1;
    assert IsLoop(text, a, b) && a + 1 < b by {
      assert Represents(Loop(body), text, a, b);
      LoopLength(text, a, b);
    }
    var g1, notes1 := EntersLoop(text, host, panic, g, pend, notes, pos, drift, a, b);
    GenOne(g, IntoLoop, host, panic);
    SilentSelf(text, a + 1);
    EnterFrame(host, panic, g, pend);
    var pend1 := pend + {tail};
    var notes2, pos2, drift2 :=
      VisitNoted(body, text, a + 1, b - 1, max, host, panic, g1, pend1, notes1, a + 1, Some(0));
    var g2 := GenAll(g1, Visit(body), host, panic);
    GenConcat(g, [IntoLoop], Visit(body), host, panic);
    LoopFrame(host, panic, g, g2, Loops(body), pend);
    assert IsAt(notes2, next, 0, a, None) && IsAt(notes2, tail, 0, b, Some(0)) by {
      AddsAt(notes1, notes2, next, 0, a, None);
      AddsAt(notes1, notes2, tail, 0, b, Some(0));
    }
    var r := LeavesLoop(text, host, panic, g2, pend1, notes2, pos2, drift2, a, b);
    GenOne(g2, OutOfLoop, host, panic);
    GenConcat(g, [IntoLoop] + Visit(body), [OutOfLoop], host, panic);
    AddsTrans(notes, notes1, notes2);
    assert pend1 - {tail} == pend;
    SilentSelf(text, b);
    notes', pos', drift' := notes2, b, Some(0);
  }

  lemma EnterFrame(host: Host, panic: nat, g: Gen, pend: set<nat>)
    requires Ready(g, IntoLoop, panic) && Outside(pend, g)
    ensures var g1 := GenEvent(g, IntoLoop, host, panic);
      && g1.lo == g.lo + 1 && g1.hi == g.hi - 1 && Outside(pend + {g.hi - 1}, g1)
  {
  }

  /** Two visits, one after the other. */
  lemma TwoFrames(g: Gen, g1: Gen, r: Gen, n: nat, m: nat, pend: set<nat>)
    requires Consumes(g, g1, n) && Keeps(g, g1) && Consumes(g1, r, m) && Keeps(g1, r)
    requires g.lo + 2 * (n + m) <= g.hi <= |g.code| && Outside(pend, g)
    ensures Consumes(g, r, n + m) && Keeps(g, r) && Outside(pend, g1) && g1.lo + 2 * m <= g1.hi
  {
  }

  lemma OneFrame(g: Gen, g1: Gen, n: nat, m: nat, pend: set<nat>)
    requires Consumes(g, g1, n) && g.lo + 2 * (n + m) <= g.hi && Outside(pend, g)
    ensures Outside(pend, g1) && g1.lo + 2 * m <= g1.hi
  {
  }

  /** What leaving a loop finds when its body has been visited. */
  lemma LoopFrame(host: Host, panic: nat, g: Gen, g2: Gen, loops: nat, pend: set<nat>)
    requires Ready(g, IntoLoop, panic) && !(g.lo <= g.cur < g.hi) && g.hi <= panic && Outside(pend, g)
    requires var g1 := GenEvent(g, IntoLoop, host, panic);
      g1.lo + 2 * loops <= g1.hi && Consumes(g1, g2, loops) && Keeps(g1, g2) && g1.code[g.hi - 1] == []
    ensures g2.stack == g.stack + [(g.lo, g.hi - 1)] && g2.code[g.hi - 1] == []
    ensures Ready(g2, OutOfLoop, panic)
    ensures g.hi - 1 != g2.cur && g.hi - 1 != panic && !(g2.lo <= g.hi - 1 < g2.hi)
    ensures var r := GenEvent(g2, OutOfLoop, host, panic);
      Consumes(g, r, 1 + loops) && Keeps(g, r)
  {
    assert g2.stack[..|g.stack|] == g.stack;
  }

  lemma LoopLength(text: string, a: nat, b: nat)
    requires IsLoop(text, a, b)
    ensures a + 1 < b <= |text|
  {
  }

  lemma AddsAt(notes: Notes, notes': Notes, block: nat, index: nat, pos: nat, drift: Option<int>)
    requires Adds(notes, notes') && IsAt(notes, block, index, pos, drift)
    ensures IsAt(notes', block, index, pos, drift)
  {
  }

  lemma {:induction false} VisitAllNoted(nodes: seq<BF>, text: string, a: nat, b: nat, max: nat, host: Host,
                                         panic: nat, g: Gen,
                                         pend: set<nat>, notes: Notes, pos: nat, drift: Option<int>)
    returns (notes': Notes, pos': nat, drift': Option<int>)
    requires Noted(text, host, panic, g, pend, notes, pos, drift) && Silent(text, pos, a) && Outside(pend, g)
    requires RepresentAll(nodes, text, a, b) && NodesShaped(nodes, max)
    requires g.lo + 2 * LoopsAll(nodes) <= g.hi && drift == Some(0)
    ensures Visited(text, host, panic, g, VisitAll(nodes), LoopsAll(nodes), pend, notes, b, notes', pos', drift')
    ensures nodes == [] || nodes[|nodes| - 1].Loop? ==> drift' == Some(0)
    decreases nodes, 0
  {
    hide GenAll, AllReady, Noted, Silent, Consumes, Keeps, Outside, Adds, IsAt, Visit, Loops, Represents, Shaped;
    NotedCur(text, host, panic, g, pend, notes, pos, drift);
    if nodes == [] {
      notes', pos', drift' := notes, pos, drift;
      GenNone(g, host, panic);
      SameFrame(g, notes);
    } else {
      var init, last := nodes[..|nodes| - 1], nodes[|nodes| - 1];
      var m: nat :| RepresentAll(init, text, a, m) && Represents(last, text, m, b);
      var notes1, pos1, drift1 := VisitAllNoted(init, text, a, m, max, host, panic, g, pend, notes, pos, drift);
      var g1 := GenAll(g, VisitAll(init), host, panic);
      OneFrame(g, g1, LoopsAll(init), Loops(last), pend);
      notes', pos', drift' := VisitNoted(last, text, m, b, max, host, panic, g1, pend, notes1, pos1, drift1);
      GenConcat(g, VisitAll(init), Visit(last), host, panic);
      TwoFrames(g, g1, GenAll(g1, Visit(last), host, panic), LoopsAll(init), Loops(last), pend);
      AddsTrans(notes, notes1, notes');
    }
  }

  lemma SameFrame(g: Gen, notes: Notes)
    requires g.cur < |g.code|
    ensures Consumes(g, g, 0) && Keeps(g, g) && Adds(notes, notes)
  {
  }

  // ----- whole programs -----

  lemma StartNoted(text: string, host: Host, loops: nat) returns (notes: Notes)
    ensures Noted(text, host, PanicBlock(loops), GenStart(loops), {}, notes, 0, Some(0))
  {
    notes := map[(0, 0) := At(0, Some(0)), (PanicBlock(loops), 0) := Panic];
  }

  /** The last check, the return of the program and the return of the panic block. */
  lemma FinishNoted(text: string, host: Host, panic: nat, g: Gen, notes: Notes, pos: nat,
                    drift: Option<int>) returns (notes': Notes)
    requires Noted(text, host, panic, g, {}, notes, pos, drift) && Silent(text, pos, |text|)
    requires IsAt(notes, 0, 0, 0, Some(0))
    ensures Program(text, host, GenFinish(g, panic), notes')
  {
    hide Silent, AllJustified, Justified, Placed, GenFinish;
    NotedCur(text, host, panic, g, {}, notes, pos, drift);
    var n := |g.code[g.cur]|;
    var code := GenFinish(g, panic);
    notes' := notes[(g.cur, n + 1) := At(pos, Some(0))];
    FinishPlaced(panic, g, notes, pos, drift);
    FinishJustified(text, host, code, notes', panic, g.cur, n, pos, drift);
    AllJustifiedGrows(text, host, g.code, notes, code, notes');
  }

  lemma FinishPlaced(panic: nat, g: Gen, notes: Notes, pos: nat, drift: Option<int>)
    requires Placed(panic, g, {}, notes, pos, drift)
    ensures var notes' := notes[(g.cur, |g.code[g.cur]| + 1) := At(pos, Some(0))];
      var code := GenFinish(g, panic);
      && Adds(notes, notes') && Grows(g.code, code)
      && code[g.cur] == g.code[g.cur] + [CheckIns(panic), RetIns(0)] && code[panic] == [RetIns(Wrap(-1))]
      && (forall b, i :: (b, i) in notes' ==> HasCode(code, b, i))
      && (forall c: nat, i: nat :: HasCode(code, c, i) && !HasCode(g.code, c, i) ==>
            (c == g.cur && i == |g.code[c]|) || (c == g.cur && i == |g.code[c]| + 1) || (c == panic && i == 0))
  {
    assert !HasCode(g.code, g.cur, |g.code[g.cur]| + 1);
    assert (g.cur, |g.code[g.cur]| + 1) !in notes;
  }

  lemma FinishJustified(text: string, host: Host, code: Graph, notes: Notes, panic: nat, cur: nat, n: nat, pos: nat,
                        drift: Option<int>)
    requires Silent(text, pos, |text|) && IsAt(notes, cur, n, pos, drift) && IsAt(notes, cur, n + 1, pos, Some(0))
    requires (panic, 0) in notes && notes[(panic, 0)] == Panic
    ensures Justified(text, host, code, notes, cur, n, CheckIns(panic))
    ensures Justified(text, host, code, notes, cur, n + 1, RetIns(0))
    ensures Justified(text, host, code, notes, panic, 0, RetIns(Wrap(-1)))
  {
    hide Silent;
  }

  /** The code generated for a source file is a program for its effective text. */
  lemma GeneratedProgram(source: string, host: Host) returns (notes: Notes)
    ensures Program(Effective(source, 0), host, Generated(Parsed(source), host), notes)
  {
    hide Noted, Silent, Program, Represents, Shaped, GenAll, AllReady;
    var text, bf := Effective(source, 0), Parsed(source);
    var loops, panic := Loops(bf), PanicBlock(Loops(bf));
    var g := GenStart(loops);
    var start := StartNoted(text, host, loops);
    NotedCur(text, host, panic, g, {}, start, 0, Some(0));
    SilentSelf(text, 0);
    ParsedRepresents(source);
    ParsedShape(source);
    var visited, pos, drift := VisitNoted(bf, text, 0, |text|, |source|, host, panic, g, {}, start, 0, Some(0));
    notes := FinishNoted(text, host, panic, GenAll(g, Visit(bf), host, panic), visited, pos, drift);
  }
}
