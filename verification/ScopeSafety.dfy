/** Safety of values over all runs of a function builder. */
module ScopeSafety {
  import opened Wrappers
  import opened Locations
  import opened Slabs
  import opened Regs
  import opened Managed
  import opened Errors

  /** A call on a builder or on the handle of one of its blocks.  `values` are the inputs and
      outputs of a stencil; `ending` branches end their block and enter `next`. */
  datatype Call<S> =
    | Create
    | Enter(block: BlockId)
    | Param(id: BlockId)
    | Variable(id: BlockId)
    | Plain(id: BlockId, stencil: S, inputs: seq<Value>, outputs: seq<Value>, holes: seq<nat>)
    | Branching(id: BlockId, stencil: S, inputs: seq<Value>, outputs: seq<Value>, holes: seq<nat>,
        jumps: seq<JumpScope>)
    | Ending(id: BlockId, stencil: S, inputs: seq<Value>, outputs: seq<Value>, holes: seq<nat>, jumps: seq<JumpScope>,
             next: BlockId)
    | Returning(id: BlockId, stencil: S, inputs: seq<Value>, holes: seq<nat>)

  /** A value that was handed out, with the location it had then. */
  datatype Issue = Issue(value: Value, location: Location)

  /** `stale` numbers the values that were handed out before the scope of their block was left. */
  datatype History<!S> = History(now: Builder<S>, issued: seq<Issue>, stale: set<nat>)

  function Start<S>(has: Emitted<S> -> bool, alloc: Alloc): History<S> {
    History(Builder(has, alloc, [NewBlock()], []), [], {})
  }

  // ----- what may be called -----

  ghost predicate Issued<S>(h: History<S>, v: Value) {
    exists i :: 0 <= i < |h.issued| && h.issued[i].value == v
  }

  ghost predicate AllIssued<S>(h: History<S>, values: seq<Value>) {
    forall i :: 0 <= i < |values| ==> Issued(h, values[i])
  }

  /** No value was handed out for the block before its scope was left. */
  ghost predicate NoneStale<S>(h: History<S>, block: BlockId) {
    forall i :: 0 <= i < |h.issued| && h.issued[i].value.scope == block ==> i !in h.stale
  }

  ghost predicate MayEnter<S>(h: History<S>, block: BlockId) {
    block !in h.now.scopes && NoneStale(h, block)
  }

  /** Calls use values that were handed out and blocks that exist.  No block is entered while it is a scope, nor again
      after its scope was left with values that were handed out for it. */
  ghost predicate Allowed<S>(h: History<S>, call: Call<S>) {
    match call
    case Create => |h.now.blocks| < U16_MAX
    case Enter(block) => MayEnter(h, block)
    case Param(id) => id < |h.now.blocks|
    case Variable(id) => id < |h.now.blocks|
    case Plain(id, _, ins, outs, _) => id < |h.now.blocks| && AllIssued(h, ins) && AllIssued(h, outs)
    case Branching(id, _, ins, outs, _, jumps) =>
      id < |h.now.blocks| && AllIssued(h, ins) && AllIssued(h, outs) && h.now.InRange(jumps)
    case Ending(id, _, ins, outs, _, jumps, next) =>
      id < |h.now.blocks| && AllIssued(h, ins) && AllIssued(h, outs) && h.now.InRange(jumps) && MayEnter(h, next)
    case Returning(id, _, ins, _) => id < |h.now.blocks| && AllIssued(h, ins)
  }

  // ----- the invariant -----

  ghost predicate Lives<S>(h: History<S>, issue: Issue) {
    && h.now.Owns(issue.value.scope, issue.value)
    && h.now.alloc.slots.Has(issue.value.slot)
    && h.now.alloc.slots.Get(issue.value.slot) == issue.location
  }

  ghost predicate Safe<S>(h: History<S>) {
    && h.now.Valid()
    && (forall i :: i in h.stale ==> i < |h.issued|)
    && (forall i :: 0 <= i < |h.issued| && h.issued[i].value.scope in h.now.scopes ==> i !in h.stale)
    && (forall i :: 0 <= i < |h.issued| && i !in h.stale ==> Lives(h, h.issued[i]))
    && (forall i, j :: 0 <= i < j < |h.issued| && i !in h.stale && j !in h.stale ==>
          h.issued[i].value != h.issued[j].value)
    && (forall i :: 0 <= i < |h.issued| ==> h.now.alloc.InBounds(h.issued[i].location))
  }

  /** Issued values that the scope test accepts still have their slots: looking them up cannot panic. */
  lemma IssuedPresent<S>(h: History<S>, values: seq<Value>)
    requires Safe(h) && AllIssued(h, values)
    ensures h.now.Present(values)
  {
    hide Slab.Has, Slab.Get, Builder.Valid, Builder.Owns;
    forall i | 0 <= i < |values| && values[i].scope in h.now.scopes
      ensures h.now.alloc.slots.Has(values[i].slot)
    {
      var j :| 0 <= j < |h.issued| && h.issued[j].value == values[i];
      assert Lives(h, h.issued[j]);
    }
  }

  // ----- one call -----

  /** The values whose scope is left. */
  function Gone<S>(h: History<S>, keep: nat): (gone: set<nat>)
    requires keep <= |h.now.scopes|
    ensures forall i :: i in gone <==> 0 <= i < |h.issued| && h.issued[i].value.scope in h.now.scopes[keep..]
  {
    set i: nat | i < |h.issued| && h.issued[i].value.scope in h.now.scopes[keep..]
  }

  /** After entering a block, which leaves scopes, unless there is an error. */
  function Moved<S>(h: History<S>, p: (Option<PatchError>, Builder<S>)): History<S>
    requires p.0.None? ==> 1 <= |p.1.scopes| <= |h.now.scopes| + 1
  {
    h.(now := p.1, stale := if p.0.None? then h.stale + Gone(h, |p.1.scopes| - 1) else h.stale)
  }

  function Apply<S>(h: History<S>, call: Call<S>): (History<S>)
    requires Safe(h) && Allowed(h, call)
  {
    match call
    case Create => h.(now := h.now.CreateBlock())
    case Enter(block) => Moved(h, h.now.SwitchTo(block))
    case Param(id) =>
      NewVariableValid(h.now, id);
      Handed(h, h.now.NewParam(id))
    case Variable(id) =>
      NewVariableValid(h.now, id);
      Handed(h, h.now.NewVariable(id))
    case Plain(id, s, ins, outs, holes) =>
      IssuedPresent(h, ins); IssuedPresent(h, outs);
      h.(now := h.now.Emit(id, s, ins, outs, holes).1)
    case Branching(id, s, ins, outs, holes, jumps) =>
      IssuedPresent(h, ins); IssuedPresent(h, outs);
      h.(now := h.now.Branch(id, s, ins, outs, holes, jumps).1)
    case Ending(id, s, ins, outs, holes, jumps, next) =>
      IssuedPresent(h, ins); IssuedPresent(h, outs);
      Moved(h, h.now.EndBranch(id, s, ins, outs, holes, jumps, next))
    case Returning(id, s, ins, holes) =>
      IssuedPresent(h, ins);
      h.(now := h.now.Ret(id, s, ins, holes).1)
  }

  /** Records the value that was handed out, if any. */
  function Handed<S>(h: History<S>, p: (Result<Value, PatchError>, Builder<S>)): History<S>
    requires p.0.Ok? ==> p.1.alloc.slots.Has(p.0.value.slot)
  {
    match p.0
    case Err(_) => h.(now := p.1)
    case Ok(v) => h.(now := p.1, issued := h.issued + [Issue(v, p.1.alloc.slots.Get(v.slot))])
  }

  lemma CreateSafe<S>(h: History<S>)
    requires Safe(h) && |h.now.blocks| < U16_MAX
    ensures Safe(h.(now := h.now.CreateBlock()))
  {
    hide Alloc.Valid, Slab.Has, Slab.Get;
    var r := h.now.CreateBlock();
    assert forall c, v :: r.Owns(c, v) <==> h.now.Owns(c, v);
    var h' := h.(now := r);
    forall i | 0 <= i < |h.issued| && i !in h.stale ensures Lives(h', h.issued[i]) {
      assert Lives(h, h.issued[i]);
    }
  }

  lemma HandedSafe<S>(h: History<S>, id: BlockId)
    requires Safe(h) && id < |h.now.blocks|
    ensures h.now.NewVariable(id).0.Ok? ==> h.now.NewVariable(id).1.alloc.slots.Has(h.now.NewVariable(id).0.value.slot)
    ensures Safe(Handed(h, h.now.NewVariable(id)))
  {
    hide Alloc.Valid, Slab.Has, Slab.Get, Builder.Owns, Builder.Valid;
    NewVariableValid(h.now, id);
    var h' := Handed(h, h.now.NewVariable(id));
    forall i | 0 <= i < |h'.issued| && i !in h'.stale
      ensures Lives(h', h'.issued[i])
      ensures i < |h.issued| ==> h.now.alloc.slots.Has(h.issued[i].value.slot)
    {
      if i < |h.issued| {
        assert Lives(h, h.issued[i]);
      }
    }
  }

  /** Calls that change neither variables, slots nor scopes are safe. */
  lemma QuietSafe<S>(h: History<S>, r: Builder<S>)
    requires Safe(h) && r.alloc == h.now.alloc && r.scopes == h.now.scopes && |r.blocks| == |h.now.blocks|
    requires forall k :: 0 <= k < |r.blocks| ==> r.blocks[k].variables == h.now.blocks[k].variables
    ensures Safe(h.(now := r))
  {
    hide Builder.Valid, Builder.Owns;
    SameVariablesValid(h.now, r);
    var h' := h.(now := r);
    forall i | 0 <= i < |h.issued| && i !in h.stale ensures Lives(h', h.issued[i]) {
      assert Lives(h, h.issued[i]);
    }
  }

  /** Entering a block of which no value is stale is safe. */
  lemma EnterSafe<S>(h: History<S>, block: BlockId)
    requires Safe(h) && MayEnter(h, block)
    ensures Safe(Moved(h, h.now.SwitchTo(block)))
  {
    hide Alloc.Valid, Slab.Has, Slab.Get, Builder.Owns, Builder.Valid;
    if h.now.SwitchTo(block).0.None? {
      var h' := Moved(h, h.now.SwitchTo(block));
      var keep := |h'.now.scopes| - 1;
      EnterValid(h, block);
      forall i | 0 <= i < |h.issued| && i !in h'.stale ensures i !in h.stale && Lives(h', h.issued[i]) {
        assert Lives(h, h.issued[i]);
        assert h'.now.Owns(h.issued[i].value.scope, h.issued[i].value);
      }
      forall i | 0 <= i < |h.issued| && h.issued[i].value.scope in h'.now.scopes ensures i !in h'.stale {
        KeptScope(h.now, block, keep, h.issued[i].value.scope);
      }
    } else {
      assert Moved(h, h.now.SwitchTo(block)) == h;
    }
  }

  /** The scopes after entering `block` are valid, and its variables are those of the scopes that were kept. */
  lemma EnterValid<S>(h: History<S>, block: BlockId)
    requires Safe(h) && block !in h.now.scopes && h.now.SwitchTo(block).0.None?
    ensures var (b, keep) := (h.now.SwitchTo(block).1, |h.now.SwitchTo(block).1.scopes| - 1);
      && b.Valid() && |b.blocks| == |h.now.blocks|
      && 0 <= keep <= |h.now.scopes| && b.scopes == h.now.scopes[..keep] + [block]
      && b.alloc.regs == h.now.alloc.regs && b.alloc.stackSize == h.now.alloc.stackSize
      && (forall c, v :: b.Owns(c, v) <==> h.now.Owns(c, v) && c !in h.now.scopes[keep..])
      && (forall c, v :: b.Owns(c, v) ==> b.alloc.slots.Has(v.slot))
      && (forall c, v :: b.Owns(c, v) ==> b.alloc.slots.Get(v.slot) == h.now.alloc.slots.Get(v.slot))
  {
    hide Alloc.Valid, Slab.Has, Slab.Get, Builder.Owns, Builder.Exited;
    var (b, keep) := (h.now.SwitchTo(block).1, |h.now.SwitchTo(block).1.scopes| - 1);
    ExitedValid(h.now, keep);
    assert forall i :: 0 <= i < keep ==> b.scopes[i] == h.now.scopes[i] && b.scopes[i] != block;
    if block == 0 {
      assert h.now.scopes[..keep] == h.now.scopes && h.now.scopes[keep..] == [];
      SameVariablesFresh(h.now, b);
    } else {
      SameVariablesFresh(h.now.Exited(keep), b);
    }
  }

  /** A scope that is current after entering `block` is kept, or is that of `block`. */
  lemma KeptScope<S>(b: Builder<S>, block: BlockId, keep: nat, scope: BlockId)
    requires b.Valid() && block !in b.scopes && keep <= |b.scopes| && scope in b.scopes[..keep] + [block]
    ensures scope !in b.scopes[keep..]
    ensures scope == block || scope in b.scopes
  {
    hide Builder.Owns;
    forall i | keep <= i < |b.scopes| ensures b.scopes[i] != scope {
      if scope != block {
        var j :| 0 <= j < keep && b.scopes[j] == scope;
      }
    }
  }

  /** Every allowed call is safe. */
  lemma ApplySafe<S>(h: History<S>, call: Call<S>)
    requires Safe(h) && Allowed(h, call)
    ensures Safe(Apply(h, call))
  {
    hide Alloc.Valid, Slab.Has, Slab.Get, Builder.Owns, Builder.Valid;
    match call
    case Create => CreateSafe(h);
    case Enter(block) => EnterSafe(h, block);
    case Param(id) => HandedSafe(h, id);
    case Variable(id) => HandedSafe(h, id);
    case Plain(id, s, ins, outs, holes) =>
      IssuedPresent(h, ins); IssuedPresent(h, outs);
      QuietSafe(h, h.now.Emit(id, s, ins, outs, holes).1);
    case Branching(id, s, ins, outs, holes, jumps) =>
      IssuedPresent(h, ins); IssuedPresent(h, outs);
      QuietSafe(h, h.now.Branch(id, s, ins, outs, holes, jumps).1);
    case Ending(id, s, ins, outs, holes, jumps, next) =>
      EndingSafe(h, id, s, ins, outs, holes, jumps, next);
    case Returning(id, s, ins, holes) =>
      IssuedPresent(h, ins);
      QuietSafe(h, h.now.Ret(id, s, ins, holes).1);
  }

  /** The builders differ in code and parents only. */
  ghost predicate Quiet<S>(b: Builder<S>, r: Builder<S>) {
    && r.alloc == b.alloc && r.scopes == b.scopes && |r.blocks| == |b.blocks|
    && forall k :: 0 <= k < |b.blocks| ==> r.blocks[k].variables == b.blocks[k].variables
  }

  /** A branch that ends its block is quiet until it enters the next block, if it gets there. */
  lemma EndingMoves<S>(h: History<S>, id: BlockId, s: S, ins: seq<Value>, outs: seq<Value>, holes: seq<nat>,
                       jumps: seq<JumpScope>, next: BlockId)
    returns (t: Builder<S>, moves: bool)
    requires Safe(h) && Allowed(h, Ending(id, s, ins, outs, holes, jumps, next))
    ensures Quiet(h.now, t) && t.Valid()
    ensures Apply(h, Ending(id, s, ins, outs, holes, jumps, next))
      == if moves then Moved(h.(now := t), t.SwitchTo(next)) else h.(now := t)
  {
    hide Alloc.Valid, Slab.Has, Slab.Get, Builder.Owns, Builder.Valid, Builder.LocationsOf, Lives;
    IssuedPresent(h, ins);
    IssuedPresent(h, outs);
    var (prep, r) := h.now.BranchPrep(id, ins, outs, jumps);
    if prep.Err? {
      t, moves := r, false;
    } else {
      var (error, u) := r.Ended(id).EmitOne(id, Emitted(s, prep.value.0, prep.value.1, holes, Targets(jumps)));
      t, moves := u, error.None?;
    }
    SameVariablesValid(h.now, t);
  }

  lemma EndingSafe<S>(h: History<S>, id: BlockId, s: S, ins: seq<Value>, outs: seq<Value>, holes: seq<nat>,
                      jumps: seq<JumpScope>, next: BlockId)
    requires Safe(h) && Allowed(h, Ending(id, s, ins, outs, holes, jumps, next))
    ensures Safe(Apply(h, Ending(id, s, ins, outs, holes, jumps, next)))
  {
    hide Safe, Apply, Moved, Builder.Valid, Builder.SwitchTo, Lives;
    var t, moves := EndingMoves(h, id, s, ins, outs, holes, jumps, next);
    QuietSafe(h, t);
    if moves {
      EnterSafe(h.(now := t), next);
    }
  }

  // ----- runs -----

  ghost predicate AllAllowed<S>(h: History<S>, calls: seq<Call<S>>)
    requires Safe(h)
    decreases |calls|
  {
    calls == [] ||
      (Allowed(h, calls[0]) && (ApplySafe(h, calls[0]); AllAllowed(Apply(h, calls[0]), calls[1..])))
  }

  ghost function Play<S>(h: History<S>, calls: seq<Call<S>>): History<S>
    requires Safe(h) && AllAllowed(h, calls)
    decreases |calls|
  {
    if calls == [] then h else
      ApplySafe(h, calls[0]);
      Play(Apply(h, calls[0]), calls[1..])
  }

  lemma {:induction false} PlaySafe<S>(h: History<S>, calls: seq<Call<S>>)
    requires Safe(h) && AllAllowed(h, calls)
    ensures Safe(Play(h, calls))
    decreases |calls|
  {
    hide Builder.Valid;
    if calls != [] {
      ApplySafe(h, calls[0]);
      PlaySafe(Apply(h, calls[0]), calls[1..]);
    }
  }

  /** A new builder is safe. */
  lemma StartSafe<S>(has: Emitted<S> -> bool, alloc: Alloc)
    requires alloc.Valid()
    ensures Safe(Start(has, alloc))
  {
    assert forall b, v :: !Start(has, alloc).now.Owns(b, v);
  }

  /** `h` is the history of a new builder after `calls`, each of which was allowed. */
  ghost predicate RunOf<S>(has: Emitted<S> -> bool, alloc: Alloc, calls: seq<Call<S>>, h: History<S>) {
    && alloc.Valid()
    && (StartSafe(has, alloc); AllAllowed(Start(has, alloc), calls))
    && h == (StartSafe(has, alloc); Play(Start(has, alloc), calls))
  }

  /** The main result: in every run, the values that the scope test accepts are looked up without
      panicking, at the locations they were given, and no two of them share a location. */
  lemma AcceptedValues<S>(has: Emitted<S> -> bool, alloc: Alloc, calls: seq<Call<S>>, h: History<S>, i: nat, j: nat)
    requires RunOf(has, alloc, calls, h)
    requires i < |h.issued| && j < |h.issued|
    requires h.now.InScope([h.issued[i].value, h.issued[j].value])
    ensures h.now.Present([h.issued[i].value, h.issued[j].value])
    ensures h.now.LocationsOf([h.issued[i].value, h.issued[j].value])
        == Ok([h.issued[i].location, h.issued[j].location])
    ensures i != j ==> h.issued[i].location != h.issued[j].location
    ensures h.now.alloc.InBounds(h.issued[i].location)
  {
    hide Slab.Has, Slab.Get;
    StartSafe(has, alloc);
    PlaySafe(Start(has, alloc), calls);
    var v, w := h.issued[i], h.issued[j];
    var values := [v.value, w.value];
    assert values[0].scope in h.now.scopes && values[1].scope in h.now.scopes;
    assert Lives(h, v) && Lives(h, w);
    assert h.now.Present(values);
    assert h.now.LocationsOf(values).value == [v.location, w.location];
    if i != j {
      assert v.value != w.value;
      assert v.value.slot != w.value.slot;
    }
  }

  /** After every run, each slot and each location in use belongs to a variable of a block. */
  lemma {:induction false} PlayNoLeak<S>(h: History<S>, calls: seq<Call<S>>)
    requires Safe(h) && AllAllowed(h, calls) && h.now.NoLeak()
    ensures Play(h, calls).now.NoLeak()
    decreases |calls|
  {
    hide Builder.Valid, Builder.NoLeak;
    if calls != [] {
      ApplySafe(h, calls[0]);
      ApplyNoLeak(h, calls[0]);
      PlayNoLeak(Apply(h, calls[0]), calls[1..]);
    }
  }

  lemma QuietNoLeak<S>(b: Builder<S>, r: Builder<S>)
    requires b.NoLeak() && r.alloc == b.alloc && |b.blocks| <= |r.blocks|
    requires forall k :: 0 <= k < |b.blocks| ==> r.blocks[k].variables == b.blocks[k].variables
    ensures r.NoLeak()
  {
    hide Alloc.NoLeak;
    forall k | r.alloc.slots.Has(k) ensures exists c, w :: r.Owns(c, w) && w.slot == k {
      var c, w :| b.Owns(c, w) && w.slot == k;
      assert r.Owns(c, w);
    }
  }

  lemma SwitchNoLeak<S>(b: Builder<S>, block: BlockId)
    requires b.Valid() && b.NoLeak()
    ensures b.SwitchTo(block).1.NoLeak()
  {
    hide Builder.NoLeak, Builder.Valid, Builder.Exited;
    var r := b.SwitchTo(block).1;
    if block < |b.blocks| && block != 0 && b.blocks[block].parent.Some?
        && b.ScopeIndex(b.blocks[block].parent.value) < |b.scopes| {
      var keep := b.ScopeIndex(b.blocks[block].parent.value) + 1;
      ExitedNoLeak(b, keep);
      QuietNoLeak(b.Exited(keep), r);
    } else {
      QuietNoLeak(b, r);
    }
  }

  lemma ApplyNoLeak<S>(h: History<S>, call: Call<S>)
    requires Safe(h) && Allowed(h, call) && h.now.NoLeak()
    ensures Apply(h, call).now.NoLeak()
  {
    hide Alloc.Valid, Slab.Has, Slab.Get, Builder.Owns, Builder.Valid, Builder.NoLeak;
    match call
    case Create => QuietNoLeak(h.now, h.now.CreateBlock());
    case Enter(block) => SwitchNoLeak(h.now, block);
    case Param(id) => NewVariableNoLeak(h.now, id);
    case Variable(id) => NewVariableNoLeak(h.now, id);
    case Plain(id, s, ins, outs, holes) =>
      IssuedPresent(h, ins); IssuedPresent(h, outs);
      QuietNoLeak(h.now, h.now.Emit(id, s, ins, outs, holes).1);
    case Branching(id, s, ins, outs, holes, jumps) =>
      IssuedPresent(h, ins); IssuedPresent(h, outs);
      QuietNoLeak(h.now, h.now.Branch(id, s, ins, outs, holes, jumps).1);
    case Ending(id, s, ins, outs, holes, jumps, next) =>
      EndingNoLeak(h, id, s, ins, outs, holes, jumps, next);
    case Returning(id, s, ins, holes) =>
      IssuedPresent(h, ins);
      QuietNoLeak(h.now, h.now.Ret(id, s, ins, holes).1);
  }

  lemma EndingNoLeak<S>(h: History<S>, id: BlockId, s: S, ins: seq<Value>, outs: seq<Value>, holes: seq<nat>,
                        jumps: seq<JumpScope>, next: BlockId)
    requires Safe(h) && Allowed(h, Ending(id, s, ins, outs, holes, jumps, next)) && h.now.NoLeak()
    ensures Apply(h, Ending(id, s, ins, outs, holes, jumps, next)).now.NoLeak()
  {
    hide Safe, Apply, Gone, Builder.Valid, Builder.NoLeak, Builder.SwitchTo, Lives;
    var t, moves := EndingMoves(h, id, s, ins, outs, holes, jumps, next);
    QuietNoLeak(h.now, t);
    if moves {
      SwitchNoLeak(t, next);
    }
  }

  // ----- exactly when a block may be entered again -----

  /** The values that the scope test accepts are live, at the locations they were given, and were handed out once. */
  ghost predicate Trusted<S>(h: History<S>) {
    && (forall i :: 0 <= i < |h.issued| && h.issued[i].value.scope in h.now.scopes ==> Lives(h, h.issued[i]))
    && (forall i, j ::
          0 <= i < j < |h.issued| && h.issued[i].value.scope in h.now.scopes
          && h.issued[j].value.scope in h.now.scopes ==>
            h.issued[i].value != h.issued[j].value)
  }

  /** Every variable of a block was handed out, and is not stale. */
  ghost predicate Accounted<S>(h: History<S>) {
    forall c, v :: h.now.Owns(c, v) ==> HandedOut(h, v)
  }

  ghost predicate HandedOut<S>(h: History<S>, v: Value) {
    exists i :: 0 <= i < |h.issued| && i !in h.stale && h.issued[i].value == v
  }

  lemma QuietAccounted<S>(h: History<S>, r: Builder<S>)
    requires Accounted(h) && |h.now.blocks| <= |r.blocks|
    requires forall k :: 0 <= k < |h.now.blocks| ==> r.blocks[k].variables == h.now.blocks[k].variables
    requires forall k :: |h.now.blocks| <= k < |r.blocks| ==> r.blocks[k].variables == []
    ensures Accounted(h.(now := r))
  {
    forall c, v | r.Owns(c, v) ensures HandedOut(h.(now := r), v) {
      assert h.now.Owns(c, v);
      StillHandedOut(h, h.(now := r), v);
    }
  }

  lemma StillHandedOut<S>(h: History<S>, h': History<S>, v: Value)
    requires HandedOut(h, v) && h.issued <= h'.issued
    requires forall i :: 0 <= i < |h.issued| && h.issued[i].value == v && i !in h.stale ==> i !in h'.stale
    ensures HandedOut(h', v)
  {
    var i :| 0 <= i < |h.issued| && i !in h.stale && h.issued[i].value == v;
    assert h'.issued[i] == h.issued[i];
  }

  lemma HandedAccounted<S>(h: History<S>, id: BlockId)
    requires Safe(h) && Accounted(h) && id < |h.now.blocks|
    ensures h.now.NewVariable(id).0.Ok? ==> h.now.NewVariable(id).1.alloc.slots.Has(h.now.NewVariable(id).0.value.slot)
    ensures Accounted(Handed(h, h.now.NewVariable(id)))
  {
    hide Alloc.Valid, Slab.Has, Slab.Get, Builder.Owns, Builder.Valid, HandedOut;
    NewVariableValid(h.now, id);
    var h' := Handed(h, h.now.NewVariable(id));
    forall c, v | h'.now.Owns(c, v) ensures HandedOut(h', v) {
      if h.now.Owns(c, v) {
        StillHandedOut(h, h', v);
      } else {
        LastHandedOut(h', v);
      }
    }
  }

  lemma LastHandedOut<S>(h: History<S>, v: Value)
    requires h.issued != [] && h.issued[|h.issued| - 1].value == v && |h.issued| - 1 !in h.stale
    ensures HandedOut(h, v)
  {
  }

  lemma EnterAccounted<S>(h: History<S>, block: BlockId)
    requires Safe(h) && Accounted(h) && block !in h.now.scopes
    ensures Accounted(Moved(h, h.now.SwitchTo(block)))
  {
    hide Alloc.Valid, Slab.Has, Slab.Get, Builder.Owns, HandedOut;
    if h.now.SwitchTo(block).0.None? {
      var h' := Moved(h, h.now.SwitchTo(block));
      EnterValid(h, block);
      forall c, v | h'.now.Owns(c, v) ensures HandedOut(h', v) {
        assert h.now.Owns(c, v) && v.scope == c;
        StillHandedOut(h, h', v);
      }
    } else {
      assert Moved(h, h.now.SwitchTo(block)) == h;
    }
  }

  lemma ApplyAccounted<S>(h: History<S>, call: Call<S>)
    requires Safe(h) && Allowed(h, call) && Accounted(h)
    ensures Accounted(Apply(h, call))
  {
    hide Alloc.Valid, Slab.Has, Slab.Get, Builder.Owns, Builder.Valid, Accounted;
    match call
    case Create => QuietAccounted(h, h.now.CreateBlock());
    case Enter(block) => EnterAccounted(h, block);
    case Param(id) => HandedAccounted(h, id);
    case Variable(id) => HandedAccounted(h, id);
    case Plain(id, s, ins, outs, holes) =>
      IssuedPresent(h, ins); IssuedPresent(h, outs);
      QuietAccounted(h, h.now.Emit(id, s, ins, outs, holes).1);
    case Branching(id, s, ins, outs, holes, jumps) =>
      IssuedPresent(h, ins); IssuedPresent(h, outs);
      QuietAccounted(h, h.now.Branch(id, s, ins, outs, holes, jumps).1);
    case Ending(id, s, ins, outs, holes, jumps, next) =>
      EndingAccounted(h, id, s, ins, outs, holes, jumps, next);
    case Returning(id, s, ins, holes) =>
      IssuedPresent(h, ins);
      QuietAccounted(h, h.now.Ret(id, s, ins, holes).1);
  }

  lemma EndingAccounted<S>(h: History<S>, id: BlockId, s: S, ins: seq<Value>, outs: seq<Value>, holes: seq<nat>,
                           jumps: seq<JumpScope>, next: BlockId)
    requires Safe(h) && Allowed(h, Ending(id, s, ins, outs, holes, jumps, next)) && Accounted(h)
    ensures Accounted(Apply(h, Ending(id, s, ins, outs, holes, jumps, next)))
  {
    hide Safe, Apply, Accounted, Moved, Builder.Valid, Builder.SwitchTo, Lives;
    var t, moves := EndingMoves(h, id, s, ins, outs, holes, jumps, next);
    QuietAccounted(h, t);
    QuietSafe(h, t);
    if moves {
      EnterAccounted(h.(now := t), next);
    }
  }

  /** In every run, the variables of the blocks are exactly the values that were handed out and are not stale. */
  lemma {:induction false} PlayAccounted<S>(h: History<S>, calls: seq<Call<S>>)
    requires Safe(h) && AllAllowed(h, calls) && Accounted(h)
    ensures Accounted(Play(h, calls))
    decreases |calls|
  {
    hide Builder.Valid, Accounted;
    if calls != [] {
      ApplySafe(h, calls[0]);
      ApplyAccounted(h, calls[0]);
      PlayAccounted(Apply(h, calls[0]), calls[1..]);
    }
  }

  /** Entering a block that is not a scope keeps the accepted values trusted exactly if no value of it is stale. */
  lemma EntryTrusted<S>(h: History<S>, block: BlockId)
    requires Safe(h) && Accounted(h) && block !in h.now.scopes && h.now.SwitchTo(block).0.None?
    ensures Trusted(Moved(h, h.now.SwitchTo(block))) <==> NoneStale(h, block)
  {
    hide Alloc.Valid, Slab.Has, Slab.Get, Builder.Owns, Builder.Valid, Builder.SwitchTo, Trusted;
    EnterValid(h, block);
    var h' := Moved(h, h.now.SwitchTo(block));
    if NoneStale(h, block) {
      EnterSafe(h, block);
      SafeTrusted(h');
    } else {
      var i :| 0 <= i < |h.issued| && h.issued[i].value.scope == block && i in h.stale;
      assert h'.now.scopes[|h'.now.scopes| - 1] == block;
      if Trusted(h') {
        TrustedLives(h', i);
        assert h.now.Owns(block, h.issued[i].value);
        var j :| 0 <= j < |h.issued| && j !in h.stale && h.issued[j].value == h.issued[i].value;
        TrustedOnce(h', i, j);
        assert false;
      }
    }
  }

  /** The same for every run. */
  lemma ReentryExactly<S>(has: Emitted<S> -> bool, alloc: Alloc, calls: seq<Call<S>>, h: History<S>, block: BlockId)
    requires RunOf(has, alloc, calls, h) && block !in h.now.scopes
    ensures h.now.Valid()
    ensures h.now.SwitchTo(block).0.None? ==>
      (Trusted(Moved(h, h.now.SwitchTo(block))) <==> NoneStale(h, block))
  {
    hide Builder.Valid, Builder.SwitchTo, Trusted, NoneStale, Moved, Accounted;
    var start := Start(has, alloc);
    StartSafe(has, alloc);
    StartAccounted(has, alloc);
    PlaySafe(start, calls);
    PlayAccounted(start, calls);
    if h.now.SwitchTo(block).0.None? {
      EntryTrusted(h, block);
    }
  }

  lemma StartAccounted<S>(has: Emitted<S> -> bool, alloc: Alloc)
    ensures Accounted(Start(has, alloc))
  {
    assert forall b, v :: !Start(has, alloc).now.Owns(b, v);
  }

  lemma SafeTrusted<S>(h: History<S>)
    requires Safe(h)
    ensures Trusted(h)
  {
    hide Lives, Builder.Valid;
  }

  lemma TrustedLives<S>(h: History<S>, i: nat)
    requires Trusted(h) && i < |h.issued| && h.issued[i].value.scope in h.now.scopes
    ensures h.now.Owns(h.issued[i].value.scope, h.issued[i].value)
  {
    assert Lives(h, h.issued[i]);
  }

  lemma TrustedOnce<S>(h: History<S>, i: nat, j: nat)
    requires Trusted(h) && i < |h.issued| && j < |h.issued| && h.issued[i].value == h.issued[j].value
    requires h.issued[i].value.scope in h.now.scopes
    ensures i == j
  {
  }

  // ----- what goes wrong otherwise -----

  lemma TopScope<S>(b: Builder<S>, x: BlockId, v: Value)
    requires b.Valid() && b.scopes != [] && b.scopes[|b.scopes| - 1] == x && b.blocks[x].variables == [v]
    ensures x < |b.blocks| && v.scope == x && b.alloc.slots.Has(v.slot) && x !in b.scopes[..|b.scopes| - 1]
    ensures b.Exited(|b.scopes| - 1).alloc == b.alloc.Dropped(v.slot)
  {
    hide Slab.Has, Slab.Get, Slab.Valid;
    var n := |b.scopes| - 1;
    assert b.Owns(x, v);
    assert b.Leaving(n, n) == [];
    assert b.Leaving(n, n + 1) == [v];
    assert DropAll(b.alloc, [v][..0]) == b.alloc;
  }

  /** Leaving the innermost block `x`, whose only variable is `v`, for a sibling `y`: the next variable
      reuses the slot. */
  lemma SiblingReuses<S>(b: Builder<S>, x: BlockId, y: BlockId, outer: BlockId, v: Value)
    requires b.Valid() && |b.scopes| >= 2 && b.scopes[|b.scopes| - 1] == x && b.scopes[|b.scopes| - 2] == outer
    requires b.blocks[x].variables == [v]
    requires 0 < y < |b.blocks| && y !in b.scopes && b.blocks[y].parent == Some(outer)
    ensures var b1 := b.SwitchTo(y).1;
      && b1.Valid() && b1.scopes == b.scopes[..|b.scopes| - 1] + [y] && |b1.blocks| == |b.blocks|
      && b1.NewVariable(y).0 == Ok(Value(v.slot, y))
  {
    hide Slab.Has, Slab.Get, Slab.Valid, Alloc.Valid, Builder.Exited;
    var n := |b.scopes| - 1;
    TopScope(b, x, v);
    ScopeIndexOf(b, n - 1);
    var b1 := b.SwitchTo(y).1;
    ExitedValid(b, n);
    SameVariablesFresh(b.Exited(n), b1);
    DropThenAllocate(b.alloc, v.slot, y);
  }

  lemma ScopeIndexOf<S>(b: Builder<S>, n: nat)
    requires b.Valid() && n < |b.scopes|
    ensures b.ScopeIndex(b.scopes[n]) == n
  {
    hide Alloc.Valid;
  }

  /** Entering a child `x` of the innermost block `y` keeps all variables. */
  lemma ChildKeeps<S>(b: Builder<S>, x: BlockId, y: BlockId)
    requires b.Valid() && 0 < x < |b.blocks| && x !in b.scopes && b.blocks[x].parent == Some(y)
    requires |b.scopes| >= 1 && b.scopes[|b.scopes| - 1] == y
    ensures var (error, r) := b.SwitchTo(x);
      && error.None? && r.alloc == b.alloc && r.blocks == b.blocks && r.scopes == b.scopes + [x]
  {
    hide Slab.Has, Slab.Get, Alloc.Valid, Builder.Owns;
    var n := |b.scopes|;
    LastScope(b);
    assert b.scopes[n..] == [] && b.scopes[..n] == b.scopes;
    assert b.Leaving(n, n) == [];
    assert b.Cleared([]) == b.blocks;
  }

  lemma LastScope<S>(b: Builder<S>)
    requires b.Valid() && b.scopes != []
    ensures b.ScopeIndex(b.scopes[|b.scopes| - 1]) == |b.scopes| - 1
  {
    hide Slab.Has, Slab.Get, Alloc.Valid, Builder.Owns;
  }

  /** So a stale value of `x` passes the scope test after `x` is entered again from `y`, at the
      location of a new value. */
  lemma ReentryAliases<S>(b: Builder<S>, x: BlockId, y: BlockId, outer: BlockId, v: Value)
    requires b.Valid() && |b.scopes| >= 2 && b.scopes[|b.scopes| - 1] == x && b.scopes[|b.scopes| - 2] == outer
    requires 0 < x && b.blocks[x].variables == [v]
    requires 0 < y < |b.blocks| && y !in b.scopes && b.blocks[y].parent == Some(outer)
    ensures b.SwitchTo(y).1.Valid() && b.SwitchTo(y).1.NewVariable(y).0.Ok?
    ensures
      var w, b2 := b.SwitchTo(y).1.NewVariable(y).0.value, b.SwitchTo(y).1.NewVariable(y).1;
      b2.SetParent(x, Some(y)).Valid() &&
      var (error, b3) := b2.SetParent(x, Some(y)).SwitchTo(x);
      && error.None? && v != w && b3.InScope([v, w]) && b3.Present([v]) && b3.Present([w])
      && b3.LocationsOf([v]) == b3.LocationsOf([w])
  {
    hide Slab.Has, Slab.Get, Alloc.Valid, Builder.Valid, Builder.Exited, Builder.InScope, Builder.Present,
         Builder.LocationsOf;
    TopScope(b, x, v);
    SiblingReuses(b, x, y, outer, v);
    var b1 := b.SwitchTo(y).1;
    assert x == b.scopes[|b.scopes| - 1] && x != y && x !in b1.scopes;
    NewVariableValid(b1, y);
    var w, b2 := b1.NewVariable(y).0.value, b1.NewVariable(y).1;
    var b' := b2.SetParent(x, Some(y));
    SameVariablesValid(b2, b');
    StaleAliases(b', x, y, v, w);
  }

  /** A stale value of `x` meets the variable of `y` that has its slot, once `x` is entered as a child of `y`. */
  lemma StaleAliases<S>(b: Builder<S>, x: BlockId, y: BlockId, v: Value, w: Value)
    requires b.Valid() && 0 < x < |b.blocks| && x !in b.scopes && b.blocks[x].parent == Some(y)
    requires |b.scopes| >= 1 && b.scopes[|b.scopes| - 1] == y
    requires b.Owns(y, w) && v == Value(w.slot, x)
    ensures var (error, r) := b.SwitchTo(x);
      && error.None? && v != w && r.InScope([v, w]) && r.Present([v]) && r.Present([w])
      && r.LocationsOf([v]) == r.LocationsOf([w])
  {
    hide Slab.Has, Slab.Get, Alloc.Valid, Builder.Exited, Builder.InScope, Builder.Present, Builder.LocationsOf,
         Builder.SwitchTo;
    ChildKeeps(b, x, y);
    var r := b.SwitchTo(x).1;
    assert r.scopes[|b.scopes|] == x && r.scopes[|b.scopes| - 1] == y;
    SameSlotAliases(r, v, w);
  }

  lemma SameSlotAliases<S>(b: Builder<S>, v: Value, w: Value)
    requires v.slot == w.slot && v.scope in b.scopes && w.scope in b.scopes && b.alloc.slots.Has(v.slot)
    ensures b.InScope([v, w]) && b.Present([v]) && b.Present([w]) && b.LocationsOf([v]) == b.LocationsOf([w])
  {
    assert [v, w][0] == v && [v, w][1] == w;
    assert [v][0] == v && [w][0] == w;
    assert b.LocationsOf([v]).value == [b.alloc.slots.Get(v.slot)];
    assert b.LocationsOf([w]).value == [b.alloc.slots.Get(v.slot)];
  }

  lemma SameVariablesFresh<S>(b: Builder<S>, r: Builder<S>)
    requires b.Valid() && r.alloc == b.alloc && r.blocks == b.blocks
    requires forall i :: 0 <= i < |r.scopes| ==> r.scopes[i] < |r.blocks|
    requires forall i, j :: 0 <= i < j < |r.scopes| ==> r.scopes[i] != r.scopes[j]
    ensures r.Valid()
    ensures forall c, v :: r.Owns(c, v) <==> b.Owns(c, v)
  {
    assert forall c, v :: r.Owns(c, v) <==> b.Owns(c, v);
  }

  // ----- a run that reaches this -----

  lemma {:induction false} PlaySnoc<S>(h: History<S>, calls: seq<Call<S>>, call: Call<S>)
    requires Safe(h) && AllAllowed(h, calls) && Safe(Play(h, calls)) && Allowed(Play(h, calls), call)
    ensures AllAllowed(h, calls + [call]) && Play(h, calls + [call]) == Apply(Play(h, calls), call)
    decreases |calls|
  {
    hide Safe, Allowed, Apply;
    if calls == [] {
      assert [] + [call] == [call] && [call][1..] == [];
    } else {
      ApplySafe(h, calls[0]);
      PlaySnoc(Apply(h, calls[0]), calls[1..], call);
      assert (calls + [call])[1..] == calls[1..] + [call];
    }
  }

  /** Three blocks without variables, the last two of them children of block 0, which has been entered. */
  ghost predicate Siblings<S>(h: History<S>, alloc: Alloc) {
    && Safe(h) && h.now.alloc == alloc && h.issued == [] && h.stale == {}
    && |h.now.blocks| == 3 && h.now.scopes == [0]
    && h.now.blocks[1].variables == [] && h.now.blocks[2].variables == []
    && h.now.blocks[1].parent == Some(0) && h.now.blocks[2].parent == Some(0)
  }

  lemma TwoBlocks<S>(has: Emitted<S> -> bool, alloc: Alloc)
    requires alloc.Valid()
    ensures var h := History(Builder(has, alloc, [NewBlock(), NewBlock(), NewBlock()], []), [], {});
      && Safe(Start(has, alloc)) && Safe(Apply(Start(has, alloc), Create))
      && Allowed(Apply(Start(has, alloc), Create), Create)
      && Safe(h) && Apply(Apply(Start(has, alloc), Create), Create) == h
  {
    hide Alloc.Valid, Slab.Has, Slab.Get;
    StartSafe(has, alloc);
    var h1 := Apply(Start(has, alloc), Create);
    ApplySafe(Start(has, alloc), Create);
    ApplySafe(h1, Create);
    assert Apply(h1, Create).now.blocks == [NewBlock(), NewBlock(), NewBlock()];
  }

  /** A branch to the blocks 1 and 2 makes them children of block 0. */
  lemma TwoChildren<S>(h: History<S>, s: S)
    requires Safe(h) && |h.now.blocks| == 3 && h.now.scopes == [0] && h.stale == {} && h.issued == []
    requires forall k :: 0 <= k < 3 ==> h.now.blocks[k] == NewBlock()
    ensures Allowed(h, Branching(0, s, [], [], [], [Child(1), Child(2)]))
    ensures Siblings(Apply(h, Branching(0, s, [], [], [], [Child(1), Child(2)])), h.now.alloc)
  {
    hide Alloc.Valid, Slab.Has, Slab.Get, Builder.Valid;
    var jumps := [Child(1), Child(2)];
    ApplySafe(h, Branching(0, s, [], [], [], jumps));
    assert h.now.SetParents(0, jumps, 0) == h.now;
    assert h.now.SetParents(0, jumps, 1) == h.now.SetParent(1, Some(0));
    assert h.now.SetParents(0, jumps, 2) == h.now.SetParent(1, Some(0)).SetParent(2, Some(0));
  }

  /** Block 1 is entered and has one variable; its sibling, block 2, is not entered. */
  ghost predicate OneVariable<S>(h: History<S>) {
    && Safe(h) && |h.issued| == 1 && h.issued[0].value.scope == 1 && h.stale == {}
    && |h.now.blocks| == 3 && h.now.scopes == [0, 1]
    && h.now.blocks[1].variables == [h.issued[0].value] && h.now.blocks[2].parent == Some(0)
  }

  /** Block 2 is entered, and its variable has the slot that the one of block 1 had. */
  ghost predicate SharedSlot<S>(h: History<S>) {
    && Safe(h) && |h.issued| == 2 && h.stale == {0}
    && h.issued[0].value.scope == 1 && h.issued[1].value == Value(h.issued[0].value.slot, 2)
    && |h.now.blocks| == 3 && h.now.scopes == [0, 2]
  }

  lemma FirstVariable<S>(h: History<S>, alloc: Alloc)
    requires Siblings(h, alloc) && alloc.slots.Len() < U16_MAX
    ensures Allowed(h, Enter(1)) && Safe(Apply(h, Enter(1)))
    ensures Allowed(Apply(h, Enter(1)), Variable(1)) && Safe(Apply(Apply(h, Enter(1)), Variable(1)))
    ensures OneVariable(Apply(Apply(h, Enter(1)), Variable(1)))
  {
    hide Alloc.Valid, Slab.Has, Slab.Get, Slab.Len, Safe, Builder.Owns;
    var h1 := Apply(h, Enter(1));
    ApplySafe(h, Enter(1));
    SafeValid(h);
    ChildKeeps(h.now, 1, 0);
    SafeValid(h1);
    AllocateSound(h1.now.alloc, 1);
    ApplySafe(h1, Variable(1));
  }

  lemma SafeValid<S>(h: History<S>)
    requires Safe(h)
    ensures h.now.Valid()
  {
  }

  lemma SecondVariable<S>(h: History<S>)
    requires OneVariable(h)
    ensures Allowed(h, Enter(2)) && Safe(Apply(h, Enter(2)))
    ensures Allowed(Apply(h, Enter(2)), Variable(2)) && Safe(Apply(Apply(h, Enter(2)), Variable(2)))
    ensures SharedSlot(Apply(Apply(h, Enter(2)), Variable(2)))
  {
    hide Alloc.Valid, Slab.Has, Slab.Get, Slab.Len, Safe, Builder.Owns, Builder.NewVariable, Builder.Exited;
    var h1 := Apply(h, Enter(2));
    ApplySafe(h, Enter(2));
    SafeValid(h);
    SiblingReuses(h.now, 1, 2, 0, h.issued[0].value);
    ApplySafe(h1, Variable(2));
    NewVariableValid(h1.now, 2);
  }

  lemma BranchBack<S>(h: History<S>, s: S)
    requires SharedSlot(h)
    ensures Allowed(h, Branching(2, s, [], [], [], [Child(1)]))
    ensures var r := Apply(h, Branching(2, s, [], [], [], [Child(1)]));
      SharedSlot(r) && r.now.blocks[1].parent == Some(2)
  {
    hide Alloc.Valid, Slab.Has, Slab.Get, Builder.Valid;
    ApplySafe(h, Branching(2, s, [], [], [], [Child(1)]));
    assert h.now.SetParents(2, [Child(1)], 0) == h.now;
    assert h.now.SetParents(2, [Child(1)], 1) == h.now.SetParent(1, Some(2));
  }

  lemma SharedSlotAliases<S>(h: History<S>)
    requires SharedSlot(h) && h.now.blocks[1].parent == Some(2)
    ensures !MayEnter(h, 1)
    ensures var (error, b) := h.now.SwitchTo(1);
      var (v, w) := (h.issued[0].value, h.issued[1].value);
      && error.None? && v != w && b.InScope([v, w]) && b.Present([v]) && b.Present([w])
      && b.LocationsOf([v]) == b.LocationsOf([w])
  {
    hide Builder.Valid, Builder.SwitchTo, Builder.InScope, Builder.Present, Builder.LocationsOf;
    assert h.issued[0].value.scope == 1 && 0 in h.stale;
    assert h.now.scopes[1] == 2;
    assert Lives(h, h.issued[1]);
    StaleAliases(h.now, 1, 2, h.issued[0].value, h.issued[1].value);
  }

  /** Block 0 is entered and gets the children 1 and 2. */
  function ChildCalls<S>(s: S): seq<Call<S>> {
    [] + [Create] + [Create] + [Enter(0)] + [Branching(0, s, [], [], [], [Child(1), Child(2)])]
  }

  /** Each of the children is entered and gets a variable; then block 2 branches to block 1. */
  function ReentryCalls<S>(s: S): seq<Call<S>> {
    ChildCalls(s) + [Enter(1)] + [Variable(1)] + [Enter(2)] + [Variable(2)]
    + [Branching(2, s, [], [], [], [Child(1)])]
  }

  lemma ChildrenReached<S>(has: Emitted<S> -> bool, alloc: Alloc, s: S)
    requires alloc.Valid()
    ensures Safe(Start(has, alloc)) && AllAllowed(Start(has, alloc), ChildCalls(s))
    ensures Siblings(Play(Start(has, alloc), ChildCalls(s)), alloc)
  {
    hide Safe, Apply, AllAllowed, Builder.Valid, Alloc.Valid;
    var h0 := Start(has, alloc);
    TwoBlocks(has, alloc);
    NothingPlayed(h0);
    PlaySnoc(h0, [], Create);
    PlaySnoc(h0, [] + [Create], Create);
    var h2 := Apply(Apply(h0, Create), Create);
    FirstEntered(h2);
    PlaySnoc(h0, [] + [Create] + [Create], Enter(0));
    TwoChildren(Apply(h2, Enter(0)), s);
    PlaySnoc(h0, [] + [Create] + [Create] + [Enter(0)], Branching(0, s, [], [], [], [Child(1), Child(2)]));
  }

  lemma NothingPlayed<S>(h: History<S>)
    requires Safe(h)
    ensures AllAllowed(h, []) && Play(h, []) == h
  {
    hide Safe;
  }

  lemma FirstEntered<S>(h: History<S>)
    requires Safe(h) && h.now.scopes == [] && h.now.blocks != [] && MayEnter(h, 0)
    ensures Safe(Apply(h, Enter(0)))
    ensures Apply(h, Enter(0)) == h.(now := h.now.(scopes := [0]))
  {
    hide Safe, MayEnter, Builder.Valid, Builder.SwitchTo, Moved;
    ApplySafe(h, Enter(0));
    SafeValid(h);
    EntryFirst(h.now);
    NoneGone(h, h.now.(scopes := [0]));
  }

  lemma EntryFirst<S>(b: Builder<S>)
    requires b.Valid() && b.scopes == [] && b.blocks != []
    ensures b.SwitchTo(0) == (None, b.(scopes := [0]))
  {
    hide Builder.Valid, Builder.Exited;
    assert b.scopes + [0] == [0];
  }

  lemma NoneGone<S>(h: History<S>, b: Builder<S>)
    requires h.now.scopes == [] && |b.scopes| == 1
    ensures Moved(h, (None, b)) == h.(now := b)
  {
    assert Gone(h, 0) == {};
  }

  /** All these calls on a new builder are allowed.  Entering block 1 a second time is not, but succeeds,
      and then the two variables both pass the scope test at one location. */
  lemma ReentryReached<S>(has: Emitted<S> -> bool, alloc: Alloc, s: S)
    requires alloc.Valid() && alloc.slots.Len() < U16_MAX
    ensures Safe(Start(has, alloc)) && AllAllowed(Start(has, alloc), ReentryCalls(s))
    ensures var h := Play(Start(has, alloc), ReentryCalls(s));
      && !MayEnter(h, 1) && |h.issued| == 2 && h.now.Valid() &&
      var (error, b) := h.now.SwitchTo(1);
      var (v, w) := (h.issued[0].value, h.issued[1].value);
      && error.None? && v != w && b.InScope([v, w]) && b.Present([v]) && b.Present([w])
      && b.LocationsOf([v]) == b.LocationsOf([w])
  {
    hide Safe, Allowed, MayEnter, Apply, AllAllowed, Play, ChildCalls, Builder.SwitchTo, Builder.InScope,
         Builder.Present, Builder.LocationsOf, Builder.Valid, Alloc.Valid, Slab.Len;
    var (h0, c4) := (Start(has, alloc), ChildCalls(s));
    ChildrenReached(has, alloc, s);
    var h4 := Play(h0, c4);
    FirstVariable(h4, alloc);
    PlaySnoc(h0, c4, Enter(1));
    PlaySnoc(h0, c4 + [Enter(1)], Variable(1));
    var h6 := Apply(Apply(h4, Enter(1)), Variable(1));
    SecondVariable(h6);
    var c6 := c4 + [Enter(1)] + [Variable(1)];
    PlaySnoc(h0, c6, Enter(2));
    PlaySnoc(h0, c6 + [Enter(2)], Variable(2));
    var h8 := Apply(Apply(h6, Enter(2)), Variable(2));
    BranchBack(h8, s);
    PlaySnoc(h0, c6 + [Enter(2)] + [Variable(2)], Branching(2, s, [], [], [], [Child(1)]));
    SafeValid(Play(h0, ReentryCalls(s)));
    SharedSlotAliases(Play(h0, ReentryCalls(s)));
  }
}
