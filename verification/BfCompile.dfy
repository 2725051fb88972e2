/** The compiler (`compile` in `examples/bf/src/main.rs`), driving a function builder. */
module BfCompile {
  import opened Wrappers
  import opened Locations
  import opened Slabs
  import opened Regs
  import opened Managed
  import opened Errors
  import opened Words
  import opened BfParser
  import opened BfTarget
  import opened BfCodegen
  import opened BfCorrectness

  /** The registers that the stencils are generated for. */
  const MAX_REGS := 4

  /** The library has every stencil, for the operand locations it is used with. */
  ghost predicate Complete(has: Ins -> bool, host: Host) {
    forall e: Ins :: OperandsOk(e, host) ==> has(e)
  }

  // ----- the builder in step with the generator -----

  ghost predicate ParamsAt(b: Builder<Stencil>, params: seq<Value>) {
    && |params| == 3
    && (forall i :: 0 <= i < 3 ==> params[i].scope == 0 && b.alloc.slots.Has(params[i].slot))
    && (forall i :: 0 <= i < 3 ==> b.alloc.slots.Get(params[i].slot) == Register(i))
  }

  /** The blocks hold the code that the generator has made so far; the scopes are the entry and the current
      block; the blocks in `left` have been ended. */
  ghost predicate InStep(b: Builder<Stencil>, g: Gen, host: Host, params: seq<Value>, left: set<nat>) {
    && b.Valid() && Complete(b.has, host) && ParamsAt(b, params)
    && b.alloc.regs == MAX_REGS - 1 && b.alloc.stackSize == 0
    && |b.blocks| == |g.code| <= U16_MAX && g.cur < |g.code|
    && (forall k :: 0 <= k < |g.code| ==> b.blocks[k].code == g.code[k])
    && (forall k :: 0 <= k < |g.code| ==> (b.blocks[k].ended <==> k in left))
    && (forall k :: 1 <= k < |g.code| ==> b.blocks[k].variables == [] && b.blocks[k].parent in {None, Some(0)})
    && b.scopes == (if g.cur == 0 then [0] else [0, g.cur])
    && b.blocks[0].parent == None && (g.cur > 0 ==> b.blocks[g.cur].parent == Some(0))
    && g.cur !in left
  }

  /** The values that a stencil is emitted with. */
  function InputsOf(stencil: Stencil, params: seq<Value>): seq<Value>
    requires |params| == 3
  {
    if Moves(stencil) then [params[2]] else if stencil in {JMP, RET} then [] else params
  }

  function OutputsOf(stencil: Stencil, params: seq<Value>): seq<Value>
    requires |params| == 3
  {
    if Moves(stencil) then [params[2]] else []
  }

  lemma ParamsLocated(b: Builder<Stencil>, params: seq<Value>, stencil: Stencil)
    requires ParamsAt(b, params) && 0 in b.scopes
    ensures b.Present(InputsOf(stencil, params)) && b.Present(OutputsOf(stencil, params))
    ensures b.LocationsOf(InputsOf(stencil, params)) ==
      Ok(if Moves(stencil) then INDEX else if stencil in {JMP, RET} then [] else PARAMS)
    ensures b.LocationsOf(OutputsOf(stencil, params)) == Ok(if Moves(stencil) then INDEX else [])
  {
    hide Slab.Has, Slab.Get;
    var ins, outs := InputsOf(stencil, params), OutputsOf(stencil, params);
    assert b.Present(ins) && b.InScope(ins);
    assert b.LocationsOf(ins).value == if Moves(stencil) then INDEX else if stencil in {JMP, RET} then [] else PARAMS;
    assert b.LocationsOf(outs).value == if Moves(stencil) then INDEX else [];
  }

  /** `emit_one` finds every stencil with the operands it expects. */
  lemma OneInStep(b: Builder<Stencil>, id: BlockId, e: Ins, host: Host)
    requires id < |b.blocks| && b.alloc.regs == 3 && Complete(b.has, host) && OperandsOk(e, host)
    ensures b.EmitOne(id, e) == (None, b.(blocks := b.blocks[id := b.blocks[id].(code := b.blocks[id].code + [e])]))
  {
  }

  /** Appending a stencil, and nothing else, keeps the builder in step. */
  lemma AppendInStep(b: Builder<Stencil>, g: Gen, host: Host, params: seq<Value>, left: set<nat>, r: Builder<Stencil>,
                     e: Ins)
    requires InStep(b, g, host, params, left) && r.alloc == b.alloc && r.scopes == b.scopes && r.has == b.has
    requires |r.blocks| == |b.blocks|
    requires forall k :: 0 <= k < |b.blocks| ==> r.blocks[k].variables == b.blocks[k].variables
    requires forall k :: 0 <= k < |b.blocks| ==> r.blocks[k].ended == b.blocks[k].ended
    requires forall k :: 0 <= k < |b.blocks| ==>
      r.blocks[k].code == b.blocks[k].code + if k == g.cur then [e] else []
    requires r.blocks[0].parent == b.blocks[0].parent
    requires forall k :: 1 <= k < |b.blocks| ==> r.blocks[k].parent in {b.blocks[k].parent, Some(0)}
    ensures InStep(r, g.(code := Append(g.code, g.cur, [e])), host, params, left)
  {
    hide Alloc.Valid, Slab.Has, Slab.Get, Builder.Valid;
    SameVariablesValid(b, r);
  }

  lemma DataInStep(b: Builder<Stencil>, g: Gen, host: Host, params: seq<Value>, left: set<nat>, stencil: Stencil,
                   holes: seq<nat>)
    requires InStep(b, g, host, params, left) && IsData(stencil) && OperandsOk(DataIns(stencil, holes), host)
    requires b.Present(InputsOf(stencil, params)) && b.Present(OutputsOf(stencil, params))
    ensures var (error, r) := b.Emit(g.cur, stencil, InputsOf(stencil, params), OutputsOf(stencil, params), holes);
      error == None && InStep(r, g.(code := Append(g.code, g.cur, [DataIns(stencil, holes)])), host, params, left)
  {
    hide Alloc.Valid, Slab.Has, Slab.Get, Builder.Valid, Builder.EmitOne, InputsOf, OutputsOf, Builder.LocationsOf,
         OperandsOk;
    var e := DataIns(stencil, holes);
    ParamsLocated(b, params, stencil);
    OneInStep(b, g.cur, e, host);
    var r := b.Emit(g.cur, stencil, InputsOf(stencil, params), OutputsOf(stencil, params), holes).1;
    AppendInStep(b, g, host, params, left, r, e);
  }

  lemma OneParentSet(r: Builder<Stencil>, id: BlockId, jump: JumpScope)
    requires id < |r.blocks| && r.InRange([jump]) && (jump.Next? || (jump.Same? && jump.block > 0))
    requires r.blocks[id].parent == (if id == 0 then None else Some(0))
    ensures var t := r.SetParentOf(id, jump);
      |t.blocks| == |r.blocks| &&
      forall k :: 0 <= k < |r.blocks| ==>
        t.blocks[k].parent == if jump.Same? && k == jump.block then Some(0) else r.blocks[k].parent
  {
    assert [jump][0] == jump;
  }

  /** The parents after a branch from the current block to blocks other than the entry. */
  lemma {:induction false} ParentsSet(b: Builder<Stencil>, id: BlockId, jumps: seq<JumpScope>, n: nat)
    requires id < |b.blocks| && n <= |jumps| && b.InRange(jumps)
    requires b.blocks[id].parent == (if id == 0 then None else Some(0))
    requires forall i :: 0 <= i < |jumps| ==> jumps[i].Next? || (jumps[i].Same? && jumps[i].block > 0)
    ensures var r := b.SetParents(id, jumps, n);
      && r.blocks[0].parent == b.blocks[0].parent && r.blocks[id].parent == b.blocks[id].parent
      && (forall k :: 1 <= k < |b.blocks| ==> r.blocks[k].parent in {b.blocks[k].parent, Some(0)})
      && (forall i :: 0 <= i < n && jumps[i].Same? ==> r.blocks[jumps[i].block].parent == Some(0))
  {
    hide Builder.SetParentOf, Builder.SetParent;
    if n > 0 {
      ParentsSet(b, id, jumps, n - 1);
      var r := b.SetParents(id, jumps, n - 1);
      assert r.InRange([jumps[n - 1]]);
      assert b.SetParents(id, jumps, n) == r.SetParentOf(id, jumps[n - 1]);
      OneParentSet(r, id, jumps[n - 1]);
    }
  }

  /** The jumps of the two branching stencils. */
  ghost predicate PlainJumps(b: Builder<Stencil>, jumps: seq<JumpScope>) {
    b.InRange(jumps) && forall i :: 0 <= i < |jumps| ==> jumps[i].Next? || (jumps[i].Same? && jumps[i].block > 0)
  }

  function BranchIns(stencil: Stencil, jumps: seq<JumpScope>): Ins {
    Emitted(stencil, if stencil == JMP then [] else PARAMS, [], [], Targets(jumps))
  }

  lemma BranchEmits(b: Builder<Stencil>, id: BlockId, params: seq<Value>, stencil: Stencil, jumps: seq<JumpScope>)
    requires ParamsAt(b, params) && 0 in b.scopes && stencil in {CHECK, IF_ZERO, JMP} && id < |b.blocks|
    requires PlainJumps(b, jumps)
    ensures b.Present(InputsOf(stencil, params)) && b.Present([])
    ensures b.Branch(id, stencil, InputsOf(stencil, params), [], [], jumps)
         == b.SetParents(id, jumps, |jumps|).EmitOne(id, BranchIns(stencil, jumps))
  {
    hide Slab.Has, Slab.Get, Builder.LocationsOf, Builder.EmitOne, Builder.SetParents, ParamsAt, Builder.Present;
    ParamsLocated(b, params, stencil);
    assert !b.JumpOutOfScope(jumps);
  }

  lemma BranchInStep(b: Builder<Stencil>, g: Gen, host: Host, params: seq<Value>, left: set<nat>, stencil: Stencil,
                     jumps: seq<JumpScope>)
    requires InStep(b, g, host, params, left) && stencil in {CHECK, IF_ZERO} && PlainJumps(b, jumps)
    requires |jumps| == JumpCount(stencil)
    requires b.Present(params) && b.Present([])
    ensures var (error, r) := b.Branch(g.cur, stencil, params, [], [], jumps);
      && error == None
      && InStep(r, g.(code := Append(g.code, g.cur, [BranchIns(stencil, jumps)])), host, params, left)
      && (forall i :: 0 <= i < |jumps| && jumps[i].Same? ==> r.blocks[jumps[i].block].parent == Some(0))
  {
    hide Alloc.Valid, Slab.Has, Slab.Get, Builder.Valid, Builder.EmitOne, Builder.LocationsOf, Builder.Branch,
         Builder.SetParents;
    var e := BranchIns(stencil, jumps);
    BranchEmits(b, g.cur, params, stencil, jumps);
    ParentsSet(b, g.cur, jumps, |jumps|);
    var prepared := b.SetParents(g.cur, jumps, |jumps|);
    OneInStep(prepared, g.cur, e, host);
    var r := b.Branch(g.cur, stencil, params, [], [], jumps).1;
    AppendInStep(b, g, host, params, left, r, e);
  }

  /** Entering a block from the entry or from a child of the entry drops nothing. */
  lemma SwitchKeeps(b: Builder<Stencil>, next: BlockId)
    requires b.Valid() && 0 < next < |b.blocks| && b.blocks[next].parent == Some(0)
    requires |b.scopes| in {1, 2} && b.scopes[0] == 0
    requires forall k :: 1 <= k < |b.blocks| ==> b.blocks[k].variables == []
    ensures b.SwitchTo(next) == (None, b.(scopes := [0, next]))
  {
    hide Alloc.Valid, Slab.Has, Slab.Get, DropAll, Droppable;
    var n := |b.scopes|;
    assert b.Leaving(1, 1) == [];
    assert b.Leaving(1, n) == [] by {
      assert n == 2 ==> b.scopes[1] != b.scopes[0];
    }
    DropNothing(b.alloc);
    var gone := b.scopes[1..];
    assert n == 2 ==> gone == [b.scopes[1]] && b.scopes[1] != b.scopes[0];
    forall c | 0 <= c < |b.blocks| ensures b.Cleared(gone)[c] == b.blocks[c] {
    }
    assert b.Cleared(gone) == b.blocks;
    assert b.Exited(1) == b;
    assert b.scopes[..1] + [next] == [0, next];
    assert b.ScopeIndex(0) == 0;
  }

  /** Ending the current block with a stencil and entering `next`. */
  lemma EndedInStep(b: Builder<Stencil>, g: Gen, host: Host, params: seq<Value>, left: set<nat>, t: Builder<Stencil>,
                    e: Ins,
                    next: BlockId)
    requires InStep(b, g, host, params, left) && t.alloc == b.alloc && t.scopes == b.scopes && t.has == b.has
    requires |t.blocks| == |b.blocks|
    requires forall k :: 0 <= k < |b.blocks| ==> t.blocks[k].variables == b.blocks[k].variables
    requires forall k :: 0 <= k < |b.blocks| ==> (t.blocks[k].ended <==> b.blocks[k].ended || k == g.cur)
    requires forall k :: 0 <= k < |b.blocks| ==> t.blocks[k].code == b.blocks[k].code + if k == g.cur then [e] else []
    requires t.blocks[0].parent == None
    requires forall k :: 1 <= k < |b.blocks| ==> t.blocks[k].parent in {None, Some(0)}
    requires 1 <= next < |b.blocks| && t.blocks[next].parent == Some(0) && next !in left && next != g.cur
    ensures t.Valid() && t.SwitchTo(next) == (None, t.(scopes := [0, next]))
    ensures InStep(t.(scopes := [0, next]), g.(code := Append(g.code, g.cur, [e]), cur := next), host, params,
        left + {g.cur})
  {
    hide Alloc.Valid, Slab.Has, Slab.Get, Builder.Valid, Builder.SwitchTo;
    SameVariablesValid(b, t);
    SwitchKeeps(t, next);
    ScopesValid(t, next);
  }

  lemma ScopesValid(b: Builder<Stencil>, next: BlockId)
    requires b.Valid() && 0 < next < |b.blocks|
    ensures b.(scopes := [0, next]).Valid()
  {
    hide Alloc.Valid, Slab.Has, Slab.Get;
    var r := b.(scopes := [0, next]);
    assert forall c, v :: r.Owns(c, v) <==> b.Owns(c, v);
  }

  lemma EndBranchInStep(b: Builder<Stencil>, g: Gen, host: Host, params: seq<Value>, left: set<nat>, stencil: Stencil,
                        jumps: seq<JumpScope>, next: BlockId)
    requires InStep(b, g, host, params, left) && stencil in {IF_ZERO, JMP} && PlainJumps(b, jumps)
    requires |jumps| == JumpCount(stencil)
    requires exists i :: 0 <= i < |jumps| && jumps[i] == Same(next)
    requires 1 <= next < |b.blocks| && next !in left && next != g.cur
    requires b.Present(InputsOf(stencil, params)) && b.Present([])
    ensures var (error, r) := b.EndBranch(g.cur, stencil, InputsOf(stencil, params), [], [], jumps, next);
      && error == None
      && InStep(r, g.(code := Append(g.code, g.cur, [BranchIns(stencil, jumps)]), cur := next), host, params,
        left + {g.cur})
  {
    hide Alloc.Valid, Slab.Has, Slab.Get, Builder.Valid, Builder.EmitOne, Builder.LocationsOf, Builder.SetParents,
      Builder.SwitchTo,
      Builder.Present, ParamsAt, InputsOf, Builder.EndBranch, Append;
    var e := BranchIns(stencil, jumps);
    var prepared := b.SetParents(g.cur, jumps, |jumps|);
    ParentsSet(b, g.cur, jumps, |jumps|);
    OneInStep(prepared.Ended(g.cur), g.cur, e, host);
    var t := prepared.Ended(g.cur).EmitOne(g.cur, e).1;
    EndedInStep(b, g, host, params, left, t, e, next);
    EndBranchIs(b, g.cur, params, stencil, jumps, next);
  }

  lemma EndBranchIs(b: Builder<Stencil>, id: BlockId, params: seq<Value>, stencil: Stencil, jumps: seq<JumpScope>,
                    next: BlockId)
    requires b.Valid() && ParamsAt(b, params) && 0 in b.scopes && stencil in {IF_ZERO, JMP} && id < |b.blocks|
    requires PlainJumps(b, jumps)
    requires b.Present(InputsOf(stencil, params)) && b.Present([])
    requires var t := b.SetParents(id, jumps, |jumps|).Ended(id).EmitOne(id, BranchIns(stencil, jumps));
      t.0 == None && t.1.Valid()
    ensures b.EndBranch(id, stencil, InputsOf(stencil, params), [], [], jumps, next)
         == b.SetParents(id, jumps, |jumps|).Ended(id).EmitOne(id, BranchIns(stencil, jumps)).1.SwitchTo(next)
  {
    hide Alloc.Valid, Slab.Has, Slab.Get, Builder.Valid, Builder.LocationsOf, Builder.EmitOne, Builder.SetParents,
      Builder.SwitchTo,
      ParamsAt, Builder.Present;
    ParamsLocated(b, params, stencil);
    assert !b.JumpOutOfScope(jumps);
  }

  /** A return, and then entering `next`. */
  lemma RetInStep(b: Builder<Stencil>, g: Gen, host: Host, params: seq<Value>, left: set<nat>, value: nat)
    requires InStep(b, g, host, params, left) && b.Present([])
    ensures var (error, t) := b.Ret(g.cur, RET, [], [value]);
      && error == None
      && t == b.(blocks := b.blocks[g.cur := b.blocks[g.cur].(code := b.blocks[g.cur].code + [RetIns(value)],
        ended := true)])
  {
    hide Alloc.Valid, Slab.Has, Slab.Get, Builder.Valid, Builder.EmitOne, Builder.LocationsOf, Builder.Present,
         ParamsAt;
    ParamsLocated(b, params, RET);
    OneInStep(b.Ended(g.cur), g.cur, RetIns(value), host);
  }

  // ----- the blocks of the loops -----

  /** The blocks that no loop has taken lie in the middle; the open loops have taken blocks around them. */
  ghost predicate Nested(g: Gen, panic: nat) {
    && 1 <= g.lo <= g.hi <= panic < |g.code| && g.cur < panic && !(g.lo <= g.cur < g.hi)
    && (forall i :: 0 <= i < |g.stack| ==>
          1 <= g.stack[i].0 < g.lo && g.hi <= g.stack[i].1 < panic
          && g.stack[i].1 != g.cur)
    && (forall i, j :: 0 <= i < j < |g.stack| ==> g.stack[i].1 != g.stack[j].1)
  }

  ghost predicate IsTail(g: Gen, k: nat) {
    exists i :: 0 <= i < |g.stack| && g.stack[i].1 == k
  }

  /** Exactly the blocks before the untaken ones, and the tails of closed loops after them, have been entered. */
  ghost predicate Entered(g: Gen, panic: nat, left: set<nat>) {
    forall k: nat :: k in left + {g.cur} <==> k < g.lo || (g.hi <= k < panic && !IsTail(g, k))
  }

  lemma EnterNested(g: Gen, host: Host, panic: nat, left: set<nat>)
    requires Nested(g, panic) && Entered(g, panic, left) && Ready(g, IntoLoop, panic)
    ensures Nested(GenEvent(g, IntoLoop, host, panic), panic)
    ensures Entered(GenEvent(g, IntoLoop, host, panic), panic, left + {g.cur})
    ensures g.lo !in left + {g.cur} && g.lo < panic && g.hi - 1 < panic
  {
    var r := GenEvent(g, IntoLoop, host, panic);
    forall k: nat ensures k in left + {g.cur} + {r.cur} <==> k < r.lo || (r.hi <= k < panic && !IsTail(r, k)) {
      assert r.stack[|g.stack|].1 == g.hi - 1;
      if k != g.hi - 1 {
        if IsTail(g, k) {
          var i :| 0 <= i < |g.stack| && g.stack[i].1 == k;
          assert r.stack[i].1 == k;
        }
        assert IsTail(g, k) <==> IsTail(r, k);
      }
    }
  }

  lemma LeaveNested(g: Gen, host: Host, panic: nat, left: set<nat>)
    requires Nested(g, panic) && Entered(g, panic, left) && Ready(g, OutOfLoop, panic)
    ensures Nested(GenEvent(g, OutOfLoop, host, panic), panic)
    ensures Entered(GenEvent(g, OutOfLoop, host, panic), panic, left + {g.cur})
    ensures var (start, tail) := g.stack[|g.stack| - 1];
      1 <= start < panic && tail < panic && tail !in left + {g.cur}
  {
    var r := GenEvent(g, OutOfLoop, host, panic);
    var tail := g.stack[|g.stack| - 1].1;
    assert IsTail(g, tail);
    forall k: nat ensures k in left + {g.cur} + {r.cur} <==> k < r.lo || (r.hi <= k < panic && !IsTail(r, k)) {
      if k != tail {
        if IsTail(g, k) {
          var i :| 0 <= i < |g.stack| && g.stack[i].1 == k;
          assert r.stack[i].1 == k;
        }
        assert IsTail(g, k) <==> IsTail(r, k);
      }
    }
  }

  // ----- the events -----

  /** How many blocks the first visit creates: one for each way into or out of a loop. */
  function BlockEvents(evs: seq<VisitOp>): nat {
    if evs == [] then 0
    else BlockEvents(evs[..|evs| - 1]) + if evs[|evs| - 1].LeafOps? then 0 else 1
  }

  lemma {:induction false} BlockEventsConcat(a: seq<VisitOp>, b: seq<VisitOp>)
    ensures BlockEvents(a + b) == BlockEvents(a) + BlockEvents(b)
  {
    if b == [] {
      assert a + b == a;
    } else {
      BlockEventsConcat(a, b[..|b| - 1]);
      assert (a + b)[..|a + b| - 1] == a + b[..|b| - 1];
    }
  }

  lemma {:induction false} BlocksOfVisit(bf: BF)
    ensures BlockEvents(Visit(bf)) == 2 * Loops(bf)
    decreases bf, 0
  {
    match bf
    case Leaf(ops) =>
      assert [VisitOp.LeafOps(ops)][..0] == [];
    case Node(nodes) =>
      BlocksOfVisitAll(nodes);
    case Loop(body) =>
      BlocksOfVisit(body);
      BlockEventsConcat([IntoLoop], Visit(body));
      BlockEventsConcat([IntoLoop] + Visit(body), [OutOfLoop]);
      assert [IntoLoop][..0] == [] && [OutOfLoop][..0] == [];
  }

  lemma {:induction false} BlocksOfVisitAll(nodes: seq<BF>)
    ensures BlockEvents(VisitAll(nodes)) == 2 * LoopsAll(nodes)
    decreases nodes, 0
  {
    if nodes != [] {
      BlocksOfVisitAll(nodes[..|nodes| - 1]);
      BlocksOfVisit(nodes[|nodes| - 1]);
      BlockEventsConcat(VisitAll(nodes[..|nodes| - 1]), Visit(nodes[|nodes| - 1]));
    }
  }

  lemma {:induction false} ReadyPrefix(g: Gen, evs: seq<VisitOp>, host: Host, panic: nat, n: nat)
    requires AllReady(g, evs, host, panic) && n <= |evs|
    ensures AllReady(g, evs[..n], host, panic)
    ensures n < |evs| ==>
      && Ready(GenAll(g, evs[..n], host, panic), evs[n], panic)
      && AllReady(g, evs[..n + 1], host, panic)
      && GenAll(g, evs[..n + 1], host, panic) == GenEvent(GenAll(g, evs[..n], host, panic), evs[n], host, panic)
    decreases |evs| - n
  {
    hide Ready, GenEvent;
    if n == |evs| {
      assert evs[..n] == evs;
    } else {
      ReadyPrefix(g, evs, host, panic, n + 1);
      assert evs[..n + 1][..n] == evs[..n];
    }
  }

  // ----- the compiler -----

  /** The stencil and hole that `compile` picks for one operation; none for a count of zero. */
  method OneOp(builder: FunctionBuilder<Stencil>, id: BlockId, params: seq<Value>, op: Op, host: Host,
               ghost g: Gen, ghost left: set<nat>)
    returns (error: Option<PatchError>)
    requires InStep(builder.View(), g, host, params, left) && id == g.cur
    modifies builder`blocks
    ensures error == None
    ensures InStep(builder.View(), g.(code := Append(g.code, g.cur, OpCode(op, host))), host, params, left)
  {
    var stencil, holes := JMP, [];
    match op {
      case IncDec(n) =>
        if n == 0 {
          AppendNothing(g.code, g.cur);
          return None;
        } else if n == 1 {
          stencil := ADD1;
        } else if n == -1 {
          stencil := SUB1;
        } else {
          stencil, holes := if n > 0 then ADDN else SUBN, [Abs(n)];
        }
      case LeftRight(n) =>
        if n == 0 {
          AppendNothing(g.code, g.cur);
          return None;
        } else if n == 1 {
          stencil := RIGHT1;
        } else if n == -1 {
          stencil := LEFT1;
        } else {
          stencil, holes := if n > 0 then RIGHTN else LEFTN, [Abs(n)];
        }
      case In => stencil, holes := READ, [host.reader];
      case Out => stencil, holes := PRINT, [host.printer];
      case SetZero => stencil := SET_0;
      case AddTo(n) => stencil, holes := ADD_TO, [Wrap(n)];
    }
    assert OpCode(op, host) == [DataIns(stencil, holes)];
    error := EmitData(builder, id, params, stencil, holes, host, g, left);
  }

  method EmitData(builder: FunctionBuilder<Stencil>, id: BlockId, params: seq<Value>, stencil: Stencil, holes: seq<nat>,
                  ghost host: Host, ghost g: Gen, ghost left: set<nat>)
    returns (error: Option<PatchError>)
    requires InStep(builder.View(), g, host, params, left) && id == g.cur
    requires IsData(stencil) && OperandsOk(DataIns(stencil, holes), host)
    modifies builder`blocks
    ensures error == None
    ensures InStep(builder.View(), g.(code := Append(g.code, g.cur, [DataIns(stencil, holes)])), host, params, left)
  {
    ParamsLocated(builder.View(), params, stencil);
    DataInStep(builder.View(), g, host, params, left, stencil, holes);
    error := builder.Emit(id, stencil, InputsOf(stencil, params), OutputsOf(stencil, params), holes);
  }

  method CheckTape(builder: FunctionBuilder<Stencil>, id: BlockId, params: seq<Value>, panic: BlockId,
                   ghost host: Host, ghost g: Gen, ghost left: set<nat>)
    returns (error: Option<PatchError>)
    requires InStep(builder.View(), g, host, params, left) && id == g.cur && 1 <= panic < |g.code|
    modifies builder`blocks
    ensures error == None
    ensures InStep(builder.View(), g.(code := Append(g.code, g.cur, [CheckIns(panic)])), host, params, left)
    ensures builder.blocks[panic].parent == Some(0)
  {
    hide Append, Alloc.Valid, Slab.Has, Slab.Get, Builder.EmitOne, Builder.LocationsOf, Builder.SetParents,
         Builder.Branch;
    var jumps := [Next, Same(panic)];
    ParamsLocated(builder.View(), params, CHECK);
    assert Targets(jumps) == [NextStencil, Target(panic)];
    assert jumps[1] == Same(panic);
    BranchInStep(builder.View(), g, host, params, left, CHECK, jumps);
    error := builder.Branch(id, CHECK, params, [], [], jumps);
  }

  /** The stencils of one operation, with a check if the pointer has moved more than 1024 cells by then. */
  method OneStep(builder: FunctionBuilder<Stencil>, id: BlockId, params: seq<Value>, op: Op, movement: int,
                 panic: BlockId, host: Host, ghost g: Gen, ghost left: set<nat>)
    returns (error: Option<PatchError>, moved: int)
    requires InStep(builder.View(), g, host, params, left) && id == g.cur && 1 <= panic < |g.code|
    modifies builder`blocks
    ensures error == None
    ensures InStep(builder.View(), g.(code := Append(g.code, g.cur, StepCode(movement, op, host, panic))), host, params,
        left)
    ensures moved == if Abs(movement + Movement(op)) > 1024 then 0 else movement + Movement(op)
  {
    hide InStep, Append, OpCode, CheckIns, Builder.Valid;
    CodeSize(builder.View(), g, host, params, left);
    moved := movement;
    match op {
      case LeftRight(n) => moved := moved + n;
      case AddTo(n) => moved := moved + n;
      case _ =>
    }
    error := OneOp(builder, id, params, op, host, g, left);
    assert OpCode(op, host) + [] == OpCode(op, host);
    if error.None? && Abs(moved) > 1024 {
      ghost var now := g.(code := Append(g.code, g.cur, OpCode(op, host)));
      AppendTwice(g.code, g.cur, OpCode(op, host), [CheckIns(panic)]);
      error := CheckTape(builder, id, params, panic, host, now, left);
      moved := 0;
    }
  }

  /** The stencils of one leaf, with a check each time the pointer has moved more than 1024 cells. */
  method OneLeaf(builder: FunctionBuilder<Stencil>, id: BlockId, params: seq<Value>, ops: seq<Op>, panic: BlockId,
                 host: Host, ghost g: Gen, ghost left: set<nat>)
    returns (error: Option<PatchError>)
    requires InStep(builder.View(), g, host, params, left) && id == g.cur && 1 <= panic < |g.code|
    modifies builder`blocks
    ensures error == None
    ensures InStep(builder.View(), g.(code := Append(g.code, g.cur, LeafCode(ops, host, panic).0)), host, params, left)
  {
    hide InStep, Append, StepCode, Builder.Valid, LeafCode;
    CodeSize(builder.View(), g, host, params, left);
    error := None;
    var movement := 0;
    ghost var now := g;
    AppendNothing(g.code, g.cur);
    LeafCodeNone(host, panic);
    assert ops[..0] == [];
    for i := 0 to |ops|
      invariant error == None
      invariant now == g.(code := Append(g.code, g.cur, LeafCode(ops[..i], host, panic).0))
      invariant InStep(builder.View(), now, host, params, left)
      invariant movement == LeafCode(ops[..i], host, panic).1
    {
      assert ops[..i + 1] == ops[..i] + [ops[i]];
      LeafCodeStep(ops[..i], ops[i], host, panic);
      ghost var (before, step) := (LeafCode(ops[..i], host, panic).0, StepCode(movement, ops[i], host, panic));
      AppendTwice(g.code, g.cur, before, step);
      error, movement := OneStep(builder, id, params, ops[i], movement, panic, host, now, left);
      now := g.(code := Append(g.code, g.cur, before + step));
      if error.Some? {
        return;
      }
    }
    assert ops[..|ops|] == ops;
  }

  lemma CodeSize(b: Builder<Stencil>, g: Gen, host: Host, params: seq<Value>, left: set<nat>)
    requires InStep(b, g, host, params, left)
    ensures g.cur < |g.code| == |b.blocks| <= U16_MAX
  {
  }

  /** `[`: jumps into the start block of the loop, and tests there whether to go on after it. */
  method EnterLoop(builder: FunctionBuilder<Stencil>, id: BlockId, params: seq<Value>, next: BlockId, tail: BlockId,
                   panic: BlockId,
                   ghost host: Host, ghost g: Gen, ghost left: set<nat>)
    returns (error: Option<PatchError>)
    requires InStep(builder.View(), g, host, params, left) && id == g.cur && Ready(g, IntoLoop, panic)
    requires 1 <= next < |g.code| && next !in left && next != g.cur && 1 <= tail < |g.code| && 1 <= panic
    requires next == g.lo && tail == g.hi - 1
    modifies builder, builder.allocator
    ensures builder.entries == old(builder.entries) + [next]
    ensures error == None
    ensures InStep(builder.View(), GenEvent(g, IntoLoop, host, panic), host, params, left + {g.cur})
  {
    hide InStep, Append;
    error := JumpTo(builder, id, params, next, host, g, left);
    if error.Some? {
      return;
    }
    ghost var g1 := g.(code := Append(g.code, g.cur, [JmpIns(next)]), cur := next);
    error := TestLoop(builder, next, params, tail, panic, host, g1, left + {g.cur});
    InStepIgnores(builder.View(), g1.(code := Append(g1.code, next, [EnterIns(tail, panic)])),
      GenEvent(g, IntoLoop, host, panic),
                  host, params, left + {g.cur});
  }

  method JumpTo(builder: FunctionBuilder<Stencil>, id: BlockId, params: seq<Value>, next: BlockId,
                ghost host: Host, ghost g: Gen, ghost left: set<nat>)
    returns (error: Option<PatchError>)
    requires InStep(builder.View(), g, host, params, left) && id == g.cur
    requires 1 <= next < |g.code| && next !in left && next != g.cur
    modifies builder, builder.allocator
    ensures builder.entries == old(builder.entries) + [next]
    ensures error == None
    ensures InStep(builder.View(), g.(code := Append(g.code, g.cur, [JmpIns(next)]), cur := next), host, params,
        left + {g.cur})
  {
    hide InStep, InputsOf;
    CodeSize(builder.View(), g, host, params, left);
    var jumps := [Same(next)];
    ParamsPresent(builder.View(), g, host, params, left, JMP);
    assert jumps[0] == Same(next) && Targets(jumps) == [Target(next)];
    EndBranchInStep(builder.View(), g, host, params, left, JMP, jumps, next);
    JmpInputs(params);
    error := builder.EndBranch(id, JMP, [], [], [], jumps, next);
  }

  method TestLoop(builder: FunctionBuilder<Stencil>, id: BlockId, params: seq<Value>, tail: BlockId, panic: BlockId,
                  ghost host: Host, ghost g: Gen, ghost left: set<nat>)
    returns (error: Option<PatchError>)
    requires InStep(builder.View(), g, host, params, left) && id == g.cur
    requires 1 <= tail < |g.code| && 1 <= panic < |g.code|
    modifies builder`blocks
    ensures error == None
    ensures InStep(builder.View(), g.(code := Append(g.code, g.cur, [EnterIns(tail, panic)])), host, params, left)
  {
    hide InStep;
    CodeSize(builder.View(), g, host, params, left);
    var tests := [Same(tail), Next, Same(panic)];
    ParamsPresent(builder.View(), g, host, params, left, IF_ZERO);
    assert Targets(tests) == [Target(tail), NextStencil, Target(panic)];
    BranchInStep(builder.View(), g, host, params, left, IF_ZERO, tests);
    error := builder.Branch(id, IF_ZERO, params, [], [], tests);
  }

  /** `]`: tests whether to go back to the start block or on to the tail block. */
  method LeaveLoop(builder: FunctionBuilder<Stencil>, id: BlockId, params: seq<Value>, start: BlockId, tail: BlockId,
                   panic: BlockId,
                   ghost host: Host, ghost g: Gen, ghost left: set<nat>)
    returns (error: Option<PatchError>)
    requires InStep(builder.View(), g, host, params, left) && id == g.cur && Ready(g, OutOfLoop, panic)
    requires g.stack[|g.stack| - 1] == (start, tail)
    requires 1 <= tail < |g.code| && tail !in left && tail != g.cur && 1 <= start < |g.code| && 1 <= panic
    modifies builder, builder.allocator
    ensures builder.entries == old(builder.entries) + [tail]
    ensures error == None
    ensures InStep(builder.View(), GenEvent(g, OutOfLoop, host, panic), host, params, left + {g.cur})
  {
    hide InStep;
    CodeSize(builder.View(), g, host, params, left);
    var tests := [Same(tail), Same(start), Same(panic)];
    ParamsPresent(builder.View(), g, host, params, left, IF_ZERO);
    assert tests[0] == Same(tail) && Targets(tests) == [Target(tail), Target(start), Target(panic)];
    EndBranchInStep(builder.View(), g, host, params, left, IF_ZERO, tests, tail);
    error := builder.EndBranch(id, IF_ZERO, params, [], [], tests, tail);
    InStepIgnores(builder.View(), g.(code := Append(g.code, g.cur, [LeaveIns(start, tail, panic)]), cur := tail),
                  GenEvent(g, OutOfLoop, host, panic), host, params, left + {g.cur});
  }

  lemma JmpInputs(params: seq<Value>)
    requires |params| == 3
    ensures InputsOf(JMP, params) == []
  {
  }

  lemma ParamsPresent(b: Builder<Stencil>, g: Gen, host: Host, params: seq<Value>, left: set<nat>, stencil: Stencil)
    requires InStep(b, g, host, params, left)
    ensures b.Valid() && |params| == 3 && b.Present(InputsOf(stencil, params)) && b.Present(params) && b.Present([])
  {
    ParamsLocated(b, params, stencil);
    ParamsLocated(b, params, CHECK);
  }

  /** The builder does not depend on the untaken blocks or the open loops. */
  lemma InStepIgnores(b: Builder<Stencil>, g: Gen, r: Gen, host: Host, params: seq<Value>, left: set<nat>)
    requires InStep(b, g, host, params, left) && r.code == g.code && r.cur == g.cur
    ensures InStep(b, r, host, params, left)
  {
  }

  /** The returns of the program and of the panic block. */
  method Finish(builder: FunctionBuilder<Stencil>, id: BlockId, params: seq<Value>, panic: BlockId,
                ghost host: Host, ghost g: Gen, ghost left: set<nat>)
    returns (error: Option<PatchError>)
    requires InStep(builder.View(), g, host, params, left) && id == g.cur
    requires 1 <= panic < |g.code| && panic != g.cur && panic !in left
    requires forall k: nat :: k < |g.code| <==> k in left + {g.cur, panic}
    modifies builder, builder.allocator
    ensures error == None && |builder.blocks| == |g.code| && builder.allocator.stackSize == 0
    ensures builder.entries == old(builder.entries) + [panic]
    ensures forall k :: 0 <= k < |g.code| ==>
        builder.blocks[k].code == GenFinish(g, panic)[k]
        && builder.blocks[k].ended
  {
    hide InStep, Append, GenFinish;
    CodeSize(builder.View(), g, host, params, left);
    error := CheckTape(builder, id, params, panic, host, g, left);
    if error.Some? {
      return;
    }
    ghost var g1 := g.(code := Append(g.code, g.cur, [CheckIns(panic)]));
    error := ReturnInto(builder, id, params, 0, panic, host, g1, left);
    if error.Some? {
      return;
    }
    AppendTwice(g.code, g.cur, [CheckIns(panic)], [RetIns(0)]);
    ghost var g2 := g.(code := Append(g.code, g.cur, [CheckIns(panic), RetIns(0)]), cur := panic);
    assert [CheckIns(panic)] + [RetIns(0)] == [CheckIns(panic), RetIns(0)];
    ParamsPresent(builder.View(), g2, host, params, left + {g.cur}, RET);
    CodeSize(builder.View(), g2, host, params, left + {g.cur});
    RetInStep(builder.View(), g2, host, params, left + {g.cur}, Wrap(-1));
    Finished(builder.View(), g, g2, host, params, left, panic);
    error := builder.Ret(panic, RET, [], [Wrap(-1)]);
  }

  lemma Finished(b: Builder<Stencil>, g: Gen, g2: Gen, host: Host, params: seq<Value>, left: set<nat>, panic: nat)
    requires g.cur < |g.code| && panic < |g.code|
    requires g2 == g.(code := Append(g.code, g.cur, [CheckIns(panic), RetIns(0)]), cur := panic)
    requires InStep(b, g2, host, params, left + {g.cur})
    requires forall k: nat :: k < |g.code| <==> k in left + {g.cur, panic}
    ensures |b.blocks| == |g.code| && b.alloc.stackSize == 0
    ensures var e := RetIns(Wrap(-1));
      var blocks := b.blocks[panic := b.blocks[panic].(code := b.blocks[panic].code + [e], ended := true)];
      forall k :: 0 <= k < |g.code| ==> blocks[k].code == GenFinish(g, panic)[k] && blocks[k].ended
  {
    forall k: nat | k < |g.code| && k != panic ensures k in left + {g.cur} && b.blocks[k].ended {
      assert k in left + {g.cur, panic};
    }
  }

  method ReturnInto(builder: FunctionBuilder<Stencil>, id: BlockId, params: seq<Value>, value: nat, next: BlockId,
                    ghost host: Host, ghost g: Gen, ghost left: set<nat>)
    returns (error: Option<PatchError>)
    requires InStep(builder.View(), g, host, params, left) && id == g.cur
    requires 1 <= next < |g.code| && next !in left && next != g.cur && builder.blocks[next].parent == Some(0)
    modifies builder, builder.allocator
    ensures builder.entries == old(builder.entries) + [next]
    ensures error == None
    ensures InStep(builder.View(), g.(code := Append(g.code, g.cur, [RetIns(value)]), cur := next), host, params,
        left + {g.cur})
  {
    hide Append, Builder.Valid, ParamsAt, Builder.SwitchTo;
    ghost var before := builder.View();
    ParamsPresent(before, g, host, params, left, RET);
    RetInStep(before, g, host, params, left, value);
    error := builder.Ret(id, RET, [], [value]);
    EndedInStep(before, g, host, params, left, builder.View(), RetIns(value), next);
    error := builder.SwitchToBlock(next);
  }

  /** The allocator after `n` of the parameters have got the first registers, in order. */
  ghost predicate Parameterised(a: Alloc, n: nat) {
    && a.Valid() && a.regs == 3 && n <= 3 && a.stackSize == 0
    && a.slots.vacant == [] && |a.slots.entries| == n
      && (forall i :: 0 <= i < n ==> a.slots.entries[i] == Some(Register(i)))
    && |a.registers.vacant| == 3 - n && (forall i :: 0 <= i < 3 - n ==> a.registers.vacant[i] == n + i)
  }

  lemma NextParameter(a: Alloc, n: nat)
    requires Parameterised(a, n) && n < 3
    ensures a.Allocated(0).Some? && a.Allocated(0).value.0 == Value(n, 0)
    ensures Parameterised(a.Allocated(0).value.1, n + 1)
  {
    AllocateSound(a, 0);
  }

  /** Switches to the entry and takes the three parameters of the function. */
  method Parameters(builder: FunctionBuilder<Stencil>, ghost host: Host, ghost loops: nat)
    returns (error: Option<PatchError>, params: seq<Value>)
    requires builder.Valid() && Complete(builder.has, host) && builder.scopes == []
    requires |builder.blocks| == 2 * loops + 2 && forall k ::
      0 <= k < |builder.blocks| ==>
          builder.blocks[k] == NewBlock()
    requires Parameterised(builder.allocator.View(), 0)
    modifies builder, builder.allocator
    ensures builder.entries == old(builder.entries) + [0]
    ensures error == None && InStep(builder.View(), GenStart(loops), host, params, {})
  {
    hide Alloc.Valid, Builder.Valid;
    params := [];
    ghost var before := builder.View();
    error := builder.SwitchToBlock(0);
    if error.Some? {
      return;
    }
    EntryValid(before);
    assert builder.View() == before.(scopes := [0]);
    for i := 0 to 3
      invariant builder.Valid() && Parameterised(builder.allocator.View(), i)
      invariant builder.scopes == [0] && error == None && |builder.blocks| == 2 * loops + 2
      invariant builder.entries == old(builder.entries) + [0]
      invariant |params| == i && forall k :: 0 <= k < i ==> params[k] == Value(k, 0)
      invariant builder.blocks == before.blocks[0 := before.blocks[0].(variables := params)]
    {
      NextParameter(builder.allocator.View(), i);
      var value := builder.NewParam(0);
      match value {
        case Err(e) =>
          error := Some(e);
          return;
        case Ok(v) =>
          params := params + [v];
      }
    }
    ParametersInStep(builder.View(), host, loops, params);
  }

  lemma ParametersInStep(b: Builder<Stencil>, host: Host, loops: nat, params: seq<Value>)
    requires b.Valid() && Parameterised(b.alloc, 3) && Complete(b.has, host) && b.scopes == [0]
    requires |b.blocks| == 2 * loops + 2
    requires |params| == 3 && forall k :: 0 <= k < 3 ==> params[k] == Value(k, 0)
    requires forall k :: 0 <= k < |b.blocks| ==> b.blocks[k].(variables := []) == NewBlock()
    requires forall k :: 1 <= k < |b.blocks| ==> b.blocks[k].variables == []
    ensures InStep(b, GenStart(loops), host, params, {})
  {
    assert 0 == b.scopes[0];
    forall k | 0 <= k < |b.blocks| ensures b.blocks[k].code == [] && !b.blocks[k].ended && b.blocks[k].parent == None {
      assert b.blocks[k].(variables := []) == NewBlock();
    }
  }

  lemma EntryValid(b: Builder<Stencil>)
    requires b.Valid() && b.scopes == [] && |b.blocks| > 0
    ensures b.(scopes := [0]).Valid()
  {
    hide Alloc.Valid, Slab.Has, Slab.Get;
    assert forall c, v :: b.(scopes := [0]).Owns(c, v) <==> b.Owns(c, v);
  }

  lemma StartNested(loops: nat)
    ensures Nested(GenStart(loops), PanicBlock(loops)) && Entered(GenStart(loops), PanicBlock(loops), {})
  {
  }

  lemma FinishEntered(g: Gen, panic: nat, left: set<nat>)
    requires Nested(g, panic) && Entered(g, panic, left) && g.lo == g.hi && g.stack == [] && panic == |g.code| - 1
    requires g.cur !in left
    ensures panic != g.cur && panic !in left && forall k: nat :: k < |g.code| <==> k in left + {g.cur, panic}
  {
    var open := left + {g.cur};
    assert panic !in open;
    forall k: nat ensures k < |g.code| <==> k in left + {g.cur, panic} {
      assert !IsTail(g, k);
      assert k in open <==> k < panic;
      assert k in left + {g.cur, panic} <==> k in open || k == panic;
    }
  }

  lemma FinishSize(g: Gen, panic: nat)
    requires g.cur < |g.code| && panic < |g.code|
    ensures |GenFinish(g, panic)| == |g.code|
  {
  }

  lemma CurNotLeft(b: Builder<Stencil>, g: Gen, host: Host, params: seq<Value>, left: set<nat>)
    requires InStep(b, g, host, params, left)
    ensures g.cur !in left
  {
  }

  lemma NoBlockEvents()
    ensures BlockEvents([]) == 0
  {
  }

  lemma BlockEventsStep(evs: seq<VisitOp>, i: nat)
    requires i < |evs|
    ensures BlockEvents(evs[..i + 1]) == BlockEvents(evs[..i]) + (if evs[i].LeafOps? then 0 else 1)
    ensures BlockEvents(evs[..i + 1]) <= BlockEvents(evs)
  {
    hide BlockEvents;
    BlockEventsSnoc(evs[..i], evs[i]);
    assert evs[..i] + [evs[i]] == evs[..i + 1];
    BlockEventsConcat(evs[..i + 1], evs[i + 1..]);
    assert evs[..i + 1] + evs[i + 1..] == evs;
  }

  lemma BlockEventsSnoc(evs: seq<VisitOp>, ev: VisitOp)
    ensures BlockEvents(evs + [ev]) == BlockEvents(evs) + (if ev.LeafOps? then 0 else 1)
  {
    assert (evs + [ev])[..|evs + [ev]| - 1] == evs;
  }

  /** Creates the blocks of the loops, in the order of the first visit, and the panic block. */
  method CreateBlocks(builder: FunctionBuilder<Stencil>, evs: seq<VisitOp>) returns (store: seq<BlockId>,
                      panic: BlockId)
    requires builder.Valid() && |builder.blocks| == 1 && BlockEvents(evs) + 2 <= U16_MAX
    requires builder.blocks[0] == NewBlock()
    modifies builder`blocks
    ensures builder.Valid() && builder.View() == old(builder.View()).(blocks := builder.blocks)
    ensures |builder.blocks| == BlockEvents(evs) + 2 && forall k ::
      0 <= k < |builder.blocks| ==>
          builder.blocks[k] == NewBlock()
    ensures |store| == BlockEvents(evs) && (forall k :: 0 <= k < |store| ==> store[k] == k + 1) && panic == |store| + 1
  {
    hide Builder.Valid, BlockEvents;
    store := [];
    NoBlockEvents();
    assert evs[..0] == [];
    for i := 0 to |evs|
      invariant builder.Valid() && builder.View() == old(builder.View()).(blocks := builder.blocks)
      invariant |store| == BlockEvents(evs[..i]) <= BlockEvents(evs) && |builder.blocks| == |store| + 1
      invariant forall k :: 0 <= k < |builder.blocks| ==> builder.blocks[k] == NewBlock()
      invariant forall k :: 0 <= k < |store| ==> store[k] == k + 1
    {
      BlockEventsStep(evs, i);
      match evs[i] {
        case LeafOps(_) =>
        case _ =>
          var block := builder.CreateBlock();
          store := store + [block];
      }
    }
    assert evs[..|evs|] == evs;
    panic := builder.CreateBlock();
  }

  /** The variables of `compile` in step with the generator: the current block, the slice of blocks
      that no loop has taken, and the start and tail of each open loop. */
  ghost predicate Linked(g: Gen, id: nat, free: seq<BlockId>, stack: seq<(BlockId, BlockId)>) {
    && id == g.cur
    && |free| == g.hi - g.lo && (forall k :: 0 <= k < |free| ==> free[k] == g.lo + k)
    && |stack| == |g.stack| && (forall k :: 0 <= k < |stack| ==> (stack[k].0, stack[k].1) == g.stack[k])
  }

  /** One event of the second visit. */
  method OneEvent(builder: FunctionBuilder<Stencil>, id: BlockId, params: seq<Value>, ev: VisitOp,
                  free: seq<BlockId>, stack: seq<(BlockId, BlockId)>, panic: BlockId, host: Host, ghost g: Gen,
                  ghost left: set<nat>)
    returns (error: Option<PatchError>, id': BlockId, free': seq<BlockId>, stack': seq<(BlockId, BlockId)>)
    requires InStep(builder.View(), g, host, params, left) && Linked(g, id, free, stack)
    requires Nested(g, panic) && Entered(g, panic, left) && Ready(g, ev, panic)
    modifies builder, builder.allocator
    ensures builder.entries == old(builder.entries) + if ev.LeafOps? then [] else [id']
    ensures error == None && Linked(GenEvent(g, ev, host, panic), id', free', stack')
    ensures InStep(builder.View(), GenEvent(g, ev, host, panic), host, params,
        if ev.LeafOps? then left else left + {g.cur})
    ensures Nested(GenEvent(g, ev, host, panic), panic)
    ensures Entered(GenEvent(g, ev, host, panic), panic, if ev.LeafOps? then left else left + {g.cur})
  {
    hide InStep;
    id', free', stack' := id, free, stack;
    match ev
    case LeafOps(ops) =>
      error := OneLeaf(builder, id, params, ops, panic, host, g, left);
    case IntoLoop =>
      EnterNested(g, host, panic, left);
      var next, tail := free[0], free[|free| - 1];
      id', free', stack' := next, free[1..|free| - 1], stack + [(next, tail)];
      error := EnterLoop(builder, id, params, next, tail, panic, host, g, left);
    case OutOfLoop =>
      LeaveNested(g, host, panic, left);
      var (first, tail) := stack[|stack| - 1];
      id', stack' := tail, stack[..|stack| - 1];
      error := LeaveLoop(builder, id, params, first, tail, panic, host, g, left);
  }

  /** Exactly the blocks that were left and the current one have been entered, each once. */
  ghost predicate EnteredOnce(entries: seq<BlockId>, left: set<nat>, cur: nat) {
    && (forall i, j :: 0 <= i < j < |entries| ==> entries[i] != entries[j])
    && (forall k: nat :: k in entries <==> k in left || k == cur)
  }

  lemma EnteredMore(entries: seq<BlockId>, left: set<nat>, cur: nat, next: BlockId)
    requires EnteredOnce(entries, left, cur) && next !in left + {cur}
    ensures EnteredOnce(entries + [next], left + {cur}, next)
  {
    var all := entries + [next];
    forall k: nat ensures k in all <==> k in left + {cur} || k == next {
      assert k in all <==> k in entries || k == next;
    }
  }

  lemma LeafKeepsCur(g: Gen, ev: VisitOp, host: Host, panic: nat)
    requires Ready(g, ev, panic)
    ensures ev.LeafOps? ==> GenEvent(g, ev, host, panic).cur == g.cur
  {
  }

  /** The second visit: fills the blocks of the loops. */
  method FillBlocks(builder: FunctionBuilder<Stencil>, evs: seq<VisitOp>, params: seq<Value>, store: seq<BlockId>,
                    panic: BlockId,
                    host: Host, ghost start: Gen)
    returns (error: Option<PatchError>, id: BlockId, ghost left: set<nat>)
    requires AllReady(start, evs, host, panic) && InStep(builder.View(), start, host, params, {})
    requires Nested(start, panic) && Entered(start, panic, {}) && Linked(start, 0, store, []) && builder.entries == [0]
    modifies builder, builder.allocator
    ensures EnteredOnce(builder.entries, left, id)
    ensures error == None && var g := GenAll(start, evs, host, panic);
      && InStep(builder.View(), g, host, params, left) && id == g.cur && Nested(g, panic) && Entered(g, panic, left)
  {
    hide InStep, GenAll, AllReady, Nested, Entered, Linked, GenEvent;
    assert evs[..0] == [];
    GenNone(start, host, panic);
    var free, stack := store, [];
    ghost var g := start;
    id, left, error := 0, {}, None;
    for i := 0 to |evs|
      invariant AllReady(start, evs[..i], host, panic) && g == GenAll(start, evs[..i], host, panic)
      invariant InStep(builder.View(), g, host, params, left) && error == None
      invariant Nested(g, panic) && Entered(g, panic, left) && Linked(g, id, free, stack)
      invariant EnteredOnce(builder.entries, left, id)
    {
      ghost var (wasEntries, wasLeft, wasId) := (builder.entries, left, id);
      LinkedCur(g, id, free, stack);
      ReadyPrefix(start, evs, host, panic, i);
      LeafKeepsCur(g, evs[i], host, panic);
      error, id, free, stack := OneEvent(builder, id, params, evs[i], free, stack, panic, host, g, left);
      if error.Some? {
        return;
      }
      left := if evs[i].LeafOps? then left else left + {g.cur};
      g := GenEvent(g, evs[i], host, panic);
      LinkedCur(g, id, free, stack);
      CurNotLeft(builder.View(), g, host, params, left);
      if !evs[i].LeafOps? {
        EnteredMore(wasEntries, wasLeft, wasId, id);
      }
    }
    assert evs[..|evs|] == evs;
    LinkedCur(g, id, free, stack);
  }

  lemma LinkedCur(g: Gen, id: nat, free: seq<BlockId>, stack: seq<(BlockId, BlockId)>)
    requires Linked(g, id, free, stack)
    ensures id == g.cur
  {
  }

  /** What `compile` produces: the blocks, ended and with their code, and the stack slots they need. */
  datatype Output = Output(blocks: seq<BlockScope<Stencil>>, stackSlots: nat)

  ghost predicate Emits(output: Output, graph: Graph) {
    && |output.blocks| == |graph|
    && forall k :: 0 <= k < |graph| ==> output.blocks[k].code == graph[k] && output.blocks[k].ended
  }

  /** The entries are the numbers below `n`, each once. */
  ghost predicate EachOnce(entries: seq<BlockId>, n: nat) {
    && |entries| == n && (forall i :: 0 <= i < n ==> entries[i] < n)
    && (forall i, j :: 0 <= i < j < n ==> entries[i] != entries[j])
    && (forall k: nat :: k < n ==> k in entries)
  }

  lemma AllEntered(entries: seq<BlockId>, left: set<nat>, cur: nat, n: nat)
    requires EnteredOnce(entries, left, cur) && forall k: nat :: k < n <==> k in left || k == cur
    ensures EachOnce(entries, n)
  {
    forall i | 0 <= i < |entries| ensures entries[i] < n {
      assert entries[i] in entries;
    }
    DistinctBelow(entries, n);
    AllPresent(entries, n);
  }

  /** A list that contains all numbers below `n` has at least `n` elements. */
  lemma {:induction false} AllPresent(entries: seq<nat>, n: nat)
    requires forall k: nat :: k < n ==> k in entries
    ensures |entries| >= n
    decreases n
  {
    if n > 0 {
      var last: nat := n - 1;
      assert last in entries;
      var i :| 0 <= i < |entries| && entries[i] == last;
      var rest := entries[..i] + entries[i + 1..];
      forall k: nat | k < n - 1 ensures k in rest {
        assert k in entries;
        var j :| 0 <= j < |entries| && entries[j] == k;
        assert rest[if j < i then j else j - 1] == k;
      }
      AllPresent(rest, n - 1);
    }
  }

  /** The compiler.  No step fails, every block is entered exactly once and ended, no value is on the
      stack, and the blocks hold the code that the tree stands for; their jumps can be linked. */
  method Compile(source: string, host: Host, has: Ins -> bool) returns (r: Result<Output, PatchError>,
                 ghost entered: seq<BlockId>)
    requires Complete(has, host) && 2 * Loops(Parsed(source)) + 2 <= U16_MAX
    ensures r.Ok? && Emits(r.value, Generated(Parsed(source), host)) && r.value.stackSlots == 0
    ensures Linkable(Generated(Parsed(source), host))
    ensures EachOnce(entered, |Generated(Parsed(source), host)|)
  {
    hide InStep, AllReady, GenAll, GenFinish, Nested, Entered, Visit, Loops, Parsed, Linkable;
    CompiledLinkable(source, host);
    CompiledIs(source, host);
    var bf := Parse(source);
    var evs := Visit(bf);
    BlocksOfVisit(bf);
    var builder := new FunctionBuilder<Stencil>(has, MAX_REGS);
    var store, panic := CreateBlocks(builder, evs);
    var error;
    error := CompileVisit(builder, bf, evs, store, panic, host);
    entered := builder.entries;
    match error
    case None => r := Ok(Output(builder.blocks, builder.allocator.stackSize));
    case Some(e) => r := Err(e);
  }

  /** `compile` after the blocks have been created. */
  method CompileVisit(builder: FunctionBuilder<Stencil>, ghost bf: BF, evs: seq<VisitOp>, store: seq<BlockId>,
                      panic: BlockId,
                      host: Host)
    returns (error: Option<PatchError>)
    requires builder.entries == []
    requires evs == Visit(bf) && builder.Valid() && Complete(builder.has, host) && builder.scopes == []
    requires Parameterised(builder.allocator.View(), 0)
    requires |builder.blocks| == 2 * Loops(bf) + 2 && forall k ::
      0 <= k < |builder.blocks| ==>
          builder.blocks[k] == NewBlock()
    requires |store| == 2 * Loops(bf) && (forall k :: 0 <= k < |store| ==> store[k] == k + 1) && panic == |store| + 1
    modifies builder, builder.allocator
    ensures error == None && builder.allocator.stackSize == 0
    ensures Emits(Output(builder.blocks, 0), Generated(bf, host))
    ensures EachOnce(builder.entries, |Generated(bf, host)|)
  {
    hide InStep, AllReady, GenAll, GenFinish, Nested, Entered, Visit, Loops, Builder.Valid, Parameterised;
    ghost var start := GenStart(Loops(bf));
    var params;
    error, params := Parameters(builder, host, Loops(bf));
    if error.Some? {
      return;
    }
    VisitReady(bf, start, host, panic);
    StartNested(Loops(bf));
    var id;
    ghost var left;
    error, id, left := FillBlocks(builder, evs, params, store, panic, host, start);
    if error.Some? {
      return;
    }
    ghost var g := GenAll(start, evs, host, panic);
    CurNotLeft(builder.View(), g, host, params, left);
    FinishEntered(g, panic, left);
    FinishSize(g, panic);
    assert Generated(bf, host) == GenFinish(g, panic);
    EnteredMore(builder.entries, left, id, panic);
    error := Finish(builder, id, params, panic, host, g, left);
    assert forall k: nat :: k in left + {g.cur, panic} <==> k in left + {id} || k == panic;
    AllEntered(builder.entries, left + {id}, panic, |g.code|);
  }
}
