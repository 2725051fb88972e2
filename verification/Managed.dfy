/** The function builder (`src/managed.rs`): blocks, nested scopes and the values that live in them.

    A block is recorded here as the list of stencils emitted into it; the bytes of a
    block are the subject of the modules about `PatchBlock`. */
module Managed {
  import opened Wrappers
  import opened Locations
  import opened Slabs
  import opened Regs
  import opened Errors

  datatype JumpScope =
    | Next
    | Child(block: BlockId)
    | Same(block: BlockId)
    | Parent(to: BlockId, parent: BlockId)

  /** A stencil of the library, with its operands. */
  datatype Emitted<S> = Emitted(
    stencil: S,
    inputs: seq<Location>,
    outputs: seq<Location>,
    holes: seq<nat>,
    jumps: seq<JumpTarget>)

  datatype BlockScope<S> = BlockScope(
    code: seq<Emitted<S>>,
    ended: bool,
    parent: Option<BlockId>,
    variables: seq<Value>)

  function NewBlock<S>(): BlockScope<S> {
    BlockScope([], false, None, [])
  }

  // ----- specification -----

  /** The fields of a function builder, as a value. */
  datatype Builder<!S> = Builder(
    has: Emitted<S> -> bool,
    alloc: Alloc,
    blocks: seq<BlockScope<S>>,
    scopes: seq<BlockId>)
  {
    ghost predicate Owns(b: nat, v: Value) {
      b < |blocks| && v in blocks[b].variables
    }

    /** The variables of the blocks have slots in use, no two of them the same. */
    ghost predicate Valid() {
      && alloc.Valid()
      && |blocks| <= U16_MAX
      && (forall i :: 0 <= i < |scopes| ==> scopes[i] < |blocks|)
      && (forall i, j :: 0 <= i < j < |scopes| ==> scopes[i] != scopes[j])
      && (forall b, v :: Owns(b, v) ==> v.scope == b && alloc.slots.Has(v.slot))
      && (forall b, c, v, w :: Owns(b, v) && Owns(c, w) && v.slot == w.slot ==> v == w)
      && (forall b :: 0 <= b < |blocks| ==> Distinct(blocks[b].variables))
    }

    /** Every slot in use belongs to a variable of some block. */
    ghost predicate NoLeak() {
      alloc.NoLeak() && forall k :: alloc.slots.Has(k) ==> exists b, v :: Owns(b, v) && v.slot == k
    }

    function MaxRegs(): nat {
      alloc.regs + 1
    }

    // --- blocks, scopes and variables ---

    function CreateBlock(): Builder<S> {
      this.(blocks := blocks + [NewBlock()])
    }

    /** The variables of the blocks of the scopes numbered `n - 1` down to `keep`. */
    function Leaving(keep: nat, n: nat): seq<Value>
      requires n <= |scopes| && forall i :: 0 <= i < n ==> scopes[i] < |blocks|
    {
      if n <= keep then [] else blocks[scopes[n - 1]].variables + Leaving(keep, n - 1)
    }

    /** Leaves all scopes but the first `keep`: their variables are dropped. */
    function Exited(keep: nat): Builder<S>
      requires Valid() && keep <= |scopes|
    {
      LeavingDroppable(this, keep, |scopes|);
      this.(alloc := DropAll(alloc, Leaving(keep, |scopes|)), blocks := Cleared(scopes[keep..]))
    }

    function Cleared(gone: seq<BlockId>): (r: seq<BlockScope<S>>)
      ensures |r| == |blocks|
      ensures forall b :: 0 <= b < |blocks| ==> r[b] == if b in gone then blocks[b].(variables := []) else blocks[b]
    {
      seq(|blocks|, b requires 0 <= b < |blocks| => if b in gone then blocks[b].(variables := []) else blocks[b])
    }

    /** The position of `block` among the scopes, or their number. */
    function ScopeIndex(block: BlockId): (r: nat)
      ensures r <= |scopes|
      ensures r < |scopes| ==> scopes[r] == block
      ensures r == |scopes| ==> block !in scopes
    {
      IndexOf(scopes, block)
    }

    function SwitchTo(block: BlockId): (Option<PatchError>, Builder<S>)
      requires Valid()
    {
      if block >= |blocks| then (Some(UnresolvedBlockTarget), this)
      else if block == 0 then (None, this.(scopes := scopes + [block]))
      else if blocks[block].parent.None? then (Some(BlockOutOfScope), this)
      else
        var index := ScopeIndex(blocks[block].parent.value);
        if index == |scopes| then (Some(BlockOutOfScope), this)
        else (None, Exited(index + 1).(scopes := scopes[..index + 1] + [block]))
    }

    function NewVariable(id: BlockId): (Result<Value, PatchError>, Builder<S>)
      requires Valid() && id < |blocks|
    {
      match alloc.Allocated(id)
      case None => (Err(OutOfVariables), this)
      case Some(p) =>
        (Ok(p.0), this.(alloc := p.1,
                        blocks := blocks[id := blocks[id].(variables := blocks[id].variables + [p.0])]))
    }

    function NewParam(id: BlockId): (Result<Value, PatchError>, Builder<S>)
      requires Valid() && id < |blocks|
    {
      if blocks[id].parent.Some? then (Err(InvalidParams), this) else NewVariable(id)
    }

    // --- stencils ---

    predicate InScope(values: seq<Value>) {
      forall i :: 0 <= i < |values| ==> values[i].scope in scopes
    }

    /** The values that are in scope still have a slot; without this, looking up a slot panics. */
    predicate Present(values: seq<Value>) {
      forall i :: 0 <= i < |values| && values[i].scope in scopes ==> alloc.slots.Has(values[i].slot)
    }

    function LocationsOf(values: seq<Value>): Result<seq<Location>, PatchError>
      requires Present(values)
    {
      if InScope(values) then
        Ok(seq(|values|, i requires 0 <= i < |values| => alloc.slots.Get(values[i].slot)))
      else Err(VariableOutOfScope)
    }

    predicate BadRegister(locations: seq<Location>) {
      exists i :: 0 <= i < |locations| && IntoBits(locations[i]) >= MaxRegs()
    }

    /** Selects the stencil and appends it; `ended` is set beforehand by the caller. */
    function EmitOne(id: BlockId, e: Emitted<S>): (Option<PatchError>, Builder<S>)
      requires id < |blocks|
    {
      if BadRegister(e.inputs) || BadRegister(e.outputs) then (Some(InvalidRegister), this)
      else if !has(e) then (Some(StencilNotFound), this)
      else (None, this.(blocks := blocks[id := blocks[id].(code := blocks[id].code + [e])]))
    }

    function Ended(id: BlockId): Builder<S>
      requires id < |blocks|
    {
      this.(blocks := blocks[id := blocks[id].(ended := true)])
    }

    function Emit(id: BlockId, stencil: S, inputs: seq<Value>, outputs: seq<Value>, holes: seq<nat>)
      : (Option<PatchError>, Builder<S>)
      requires id < |blocks| && Present(inputs) && Present(outputs)
    {
      var (ins, outs) := (LocationsOf(inputs), LocationsOf(outputs));
      if ins.Err? then (Some(ins.error), this)
      else if outs.Err? then (Some(outs.error), this)
      else if blocks[id].ended then (Some(AlreadyEnded), this)
      else EmitOne(id, Emitted(stencil, ins.value, outs.value, holes, [NextStencil]))
    }

    function SetParent(block: BlockId, parent: Option<BlockId>): Builder<S>
      requires block < |blocks|
    {
      this.(blocks := blocks[block := blocks[block].(parent := parent)])
    }

    predicate InRange(jumps: seq<JumpScope>) {
      forall i :: 0 <= i < |jumps| ==>
        match jumps[i]
        case Next => true
        case Child(b) => b < |blocks|
        case Same(b) => b < |blocks|
        case Parent(to, parent) => to < |blocks|
    }

    function SetParentOf(id: BlockId, jump: JumpScope): (r: Builder<S>)
      requires id < |blocks| && InRange([jump])
      ensures |r.blocks| == |blocks|
    {
      assert [jump][0] == jump;
      match jump
      case Next => this
      case Child(b) => SetParent(b, Some(id))
      case Same(b) => SetParent(b, if blocks[id].parent.Some? then blocks[id].parent else Some(0))
      case Parent(to, parent) => SetParent(to, Some(parent))
    }

    /** The builder after the first `n` jumps have set the parents of their targets. */
    function SetParents(id: BlockId, jumps: seq<JumpScope>, n: nat): (r: Builder<S>)
      requires id < |blocks| && n <= |jumps| && InRange(jumps)
      ensures r.has == has && r.alloc == alloc && r.scopes == scopes && |r.blocks| == |blocks|
      ensures forall b :: 0 <= b < |blocks| ==> r.blocks[b] == blocks[b].(parent := r.blocks[b].parent)
    {
      if n == 0 then this
      else
        var r := SetParents(id, jumps, n - 1);
        assert r.InRange([jumps[n - 1]]);
        r.SetParentOf(id, jumps[n - 1])
    }

    predicate JumpOutOfScope(jumps: seq<JumpScope>) {
      exists i :: 0 <= i < |jumps| && jumps[i].Parent? && jumps[i].parent !in scopes
    }

    function BranchPrep(id: BlockId, inputs: seq<Value>, outputs: seq<Value>, jumps: seq<JumpScope>)
      : (Result<(seq<Location>, seq<Location>), PatchError>, Builder<S>)
      requires id < |blocks| && Present(inputs) && Present(outputs) && InRange(jumps)
    {
      var (ins, outs) := (LocationsOf(inputs), LocationsOf(outputs));
      if ins.Err? then (Err(ins.error), this)
      else if outs.Err? then (Err(outs.error), this)
      else
        var r := SetParents(id, jumps, |jumps|);
        if JumpOutOfScope(jumps) then (Err(BlockOutOfScope), r) else (Ok((ins.value, outs.value)), r)
    }

    function Branch(id: BlockId, stencil: S, inputs: seq<Value>, outputs: seq<Value>, holes: seq<nat>,
                    jumps: seq<JumpScope>) : (Option<PatchError>, Builder<S>)
      requires id < |blocks| && Present(inputs) && Present(outputs) && InRange(jumps)
    {
      var (prep, r) := BranchPrep(id, inputs, outputs, jumps);
      if prep.Err? then (Some(prep.error), r)
      else r.EmitOne(id, Emitted(stencil, prep.value.0, prep.value.1, holes, Targets(jumps)))
    }

    function EndBranch(id: BlockId, stencil: S, inputs: seq<Value>, outputs: seq<Value>, holes: seq<nat>,
                       jumps: seq<JumpScope>, next: BlockId) : (Option<PatchError>, Builder<S>)
      requires Valid() && id < |blocks| && Present(inputs) && Present(outputs) && InRange(jumps)
    {
      var (prep, r) := BranchPrep(id, inputs, outputs, jumps);
      if prep.Err? then (Some(prep.error), r)
      else
        var e := Emitted(stencil, prep.value.0, prep.value.1, holes, Targets(jumps));
        var (error, t) := r.Ended(id).EmitOne(id, e);
        if error.Some? then (error, t)
        else
          SameVariablesValid(this, t);
          t.SwitchTo(next)
    }

    function Ret(id: BlockId, stencil: S, inputs: seq<Value>, holes: seq<nat>) : (Option<PatchError>, Builder<S>)
      requires id < |blocks| && Present(inputs)
    {
      var ins := LocationsOf(inputs);
      if ins.Err? then (Some(ins.error), this)
      else Ended(id).EmitOne(id, Emitted(stencil, ins.value, [], holes, []))
    }
  }

  function IndexOf(s: seq<BlockId>, x: BlockId): (r: nat)
    ensures r <= |s|
    ensures r < |s| ==> s[r] == x
    ensures r == |s| ==> x !in s
  {
    if s == [] then 0 else if s[0] == x then 0 else 1 + IndexOf(s[1..], x)
  }

  function TargetOf(jump: JumpScope): JumpTarget {
    match jump
    case Next => NextStencil
    case Child(b) => Target(b)
    case Same(b) => Target(b)
    case Parent(to, _) => Target(to)
  }

  function Targets(jumps: seq<JumpScope>): (r: seq<JumpTarget>)
    ensures |r| == |jumps|
    ensures forall i :: 0 <= i < |jumps| ==> r[i] == TargetOf(jumps[i])
  {
    seq(|jumps|, i requires 0 <= i < |jumps| => TargetOf(jumps[i]))
  }

  predicate Distinct(s: seq<Value>) {
    forall i, j :: 0 <= i < j < |s| ==> s[i] != s[j]
  }

  // ----- leaving scopes -----

  /** Every leaving value is a variable of a block whose scope is left. */
  lemma {:induction false} LeavingOwned<S>(b: Builder<S>, keep: nat, n: nat, i: nat) returns (j: nat)
    requires n <= |b.scopes| && forall i :: 0 <= i < n ==> b.scopes[i] < |b.blocks|
    requires i < |b.Leaving(keep, n)|
    ensures keep <= j < n && b.Owns(b.scopes[j], b.Leaving(keep, n)[i])
    decreases n
  {
    if i < |b.blocks[b.scopes[n - 1]].variables| {
      j := n - 1;
    } else {
      j := LeavingOwned(b, keep, n - 1, i - |b.blocks[b.scopes[n - 1]].variables|);
    }
  }

  lemma {:induction false} LeavingComplete<S>(b: Builder<S>, keep: nat, n: nat, j: nat, v: Value)
    requires n <= |b.scopes| && forall i :: 0 <= i < n ==> b.scopes[i] < |b.blocks|
    requires keep <= j < n && b.Owns(b.scopes[j], v)
    ensures v in b.Leaving(keep, n)
    decreases n
  {
    if j < n - 1 {
      LeavingComplete(b, keep, n - 1, j, v);
    }
  }

  lemma {:induction false} LeavingDroppable<S>(b: Builder<S>, keep: nat, n: nat)
    requires b.Valid() && n <= |b.scopes|
    ensures Droppable(b.alloc, b.Leaving(keep, n))
    decreases n
  {
    hide Alloc.Valid, Slab.Has;
    if n > keep {
      var vars, rest := b.blocks[b.scopes[n - 1]].variables, b.Leaving(keep, n - 1);
      LeavingDroppable(b, keep, n - 1);
      forall i | 0 <= i < |vars| ensures b.Owns(b.scopes[n - 1], vars[i]) {
      }
      forall i, j | 0 <= i < |vars| && 0 <= j < |rest| ensures vars[i].slot != rest[j].slot {
        var k := LeavingOwned(b, keep, n - 1, j);
        assert b.Owns(b.scopes[n - 1], vars[i]);
      }
    }
  }

  lemma ExitedKeeps<S>(b: Builder<S>, keep: nat, c: nat, v: Value)
    requires b.Valid() && keep <= |b.scopes| && b.Owns(c, v) && c !in b.scopes[keep..]
    ensures b.Exited(keep).alloc.slots.Has(v.slot)
    ensures b.Exited(keep).alloc.slots.Get(v.slot) == b.alloc.slots.Get(v.slot)
  {
    hide Alloc.Valid, Slab.Has, Slab.Get;
    LeavingDroppable(b, keep, |b.scopes|);
    var values := b.Leaving(keep, |b.scopes|);
    forall i | 0 <= i < |values| ensures values[i].slot != v.slot {
      var j := LeavingOwned(b, keep, |b.scopes|, i);
      assert b.scopes[j] == b.scopes[keep..][j - keep];
    }
    DropAllLeaves(b.alloc, values, v.slot);
  }

  /** Leaving scopes keeps the builder valid; the variables of all other blocks stay, where they were. */
  lemma ExitedValid<S>(b: Builder<S>, keep: nat)
    requires b.Valid() && keep <= |b.scopes|
    ensures b.Exited(keep).Valid()
    ensures |b.Exited(keep).blocks| == |b.blocks| && b.Exited(keep).scopes == b.scopes
    ensures b.Exited(keep).alloc.regs == b.alloc.regs && b.Exited(keep).alloc.stackSize == b.alloc.stackSize
    ensures forall c, v :: b.Exited(keep).Owns(c, v) <==> b.Owns(c, v) && c !in b.scopes[keep..]
    ensures forall c, v :: b.Exited(keep).Owns(c, v) ==>
      b.Exited(keep).alloc.slots.Get(v.slot) == b.alloc.slots.Get(v.slot)
  {
    hide Alloc.Valid, Slab.Has, Slab.Get, Builder.Leaving, DropAll;
    LeavingDroppable(b, keep, |b.scopes|);
    var r := b.Exited(keep);
    forall c, v | r.Owns(c, v)
      ensures b.Owns(c, v) && c !in b.scopes[keep..] && r.alloc.slots.Has(v.slot)
      ensures r.alloc.slots.Get(v.slot) == b.alloc.slots.Get(v.slot)
    {
      assert b.Owns(c, v);
      ExitedKeeps(b, keep, c, v);
    }
  }

  /** Validity depends only on the allocator, the scopes and the variables of the blocks. */
  lemma SameVariablesValid<S>(b: Builder<S>, r: Builder<S>)
    requires b.Valid() && r.alloc == b.alloc && r.scopes == b.scopes && |r.blocks| == |b.blocks|
    requires forall k :: 0 <= k < |b.blocks| ==> r.blocks[k].variables == b.blocks[k].variables
    ensures r.Valid()
    ensures forall c, v :: r.Owns(c, v) <==> b.Owns(c, v)
  {
    assert forall c, v :: r.Owns(c, v) <==> b.Owns(c, v);
  }

  /** A new variable gets a fresh slot and a location nobody else has. */
  lemma NewVariableValid<S>(b: Builder<S>, id: BlockId)
    requires b.Valid() && id < |b.blocks|
    ensures b.NewVariable(id).1.Valid() && b.NewVariable(id).1.scopes == b.scopes
    ensures |b.NewVariable(id).1.blocks| == |b.blocks|
    ensures b.NewVariable(id).0.Err? <==> b.alloc.slots.Len() >= U16_MAX
    ensures b.NewVariable(id).0.Err? ==> b.NewVariable(id).1 == b
    ensures b.NewVariable(id).0.Ok? ==>
      var v, r := b.NewVariable(id).0.value, b.NewVariable(id).1;
      && v.scope == id && !b.alloc.slots.Has(v.slot)
      && r.alloc.regs == b.alloc.regs && r.alloc.stackSize >= b.alloc.stackSize
        && r.alloc.InBounds(b.alloc.NextLocation())
      && r.alloc.slots.Has(v.slot) && r.alloc.slots.Get(v.slot) == b.alloc.NextLocation()
      && (forall c, w :: r.Owns(c, w) <==> b.Owns(c, w) || (c == id && w == v))
      && (forall k :: b.alloc.slots.Has(k) ==> r.alloc.slots.Has(k) && r.alloc.slots.Get(k) == b.alloc.slots.Get(k))
      && (forall k :: r.alloc.slots.Has(k) ==> b.alloc.slots.Has(k) || k == v.slot)
  {
    hide Alloc.Valid, Slab.Has, Slab.Get;
    AllocateSound(b.alloc, id);
    if b.alloc.Allocated(id).Some? {
      var v, r := b.NewVariable(id).0.value, b.NewVariable(id).1;
      forall c, w ensures r.Owns(c, w) <==> b.Owns(c, w) || (c == id && w == v) {
      }
      assert !b.Owns(id, v);
    }
  }

  /** No slot is ever lost: a slot in use belongs to a variable, before and after each change. */
  lemma NewVariableNoLeak<S>(b: Builder<S>, id: BlockId)
    requires b.Valid() && b.NoLeak() && id < |b.blocks|
    ensures b.NewVariable(id).1.NoLeak()
  {
    hide Alloc.Valid, Alloc.NoLeak, Slab.Has, Slab.Get, Builder.Owns;
    NewVariableValid(b, id);
    AllocatorKeepsTrack(b.alloc, id, 0);
    if b.alloc.Allocated(id).Some? {
      var v, r := b.NewVariable(id).0.value, b.NewVariable(id).1;
      forall k | r.alloc.slots.Has(k) ensures exists c, w :: r.Owns(c, w) && w.slot == k {
        if k == v.slot {
          assert r.Owns(id, v);
        } else {
          var c, w :| b.Owns(c, w) && w.slot == k;
          assert r.Owns(c, w);
        }
      }
    }
  }

  lemma ExitedNoLeak<S>(b: Builder<S>, keep: nat)
    requires b.Valid() && b.NoLeak() && keep <= |b.scopes|
    ensures b.Exited(keep).NoLeak()
  {
    hide Alloc.Valid, Alloc.NoLeak, Slab.Has, Slab.Get, Builder.Owns;
    ExitedValid(b, keep);
    LeavingDroppable(b, keep, |b.scopes|);
    var r, values := b.Exited(keep), b.Leaving(keep, |b.scopes|);
    DropAllKeepsTrack(b.alloc, values);
    forall k | r.alloc.slots.Has(k) ensures exists c, w :: r.Owns(c, w) && w.slot == k {
      DropAllLeaves(b.alloc, values, k);
      var c, w :| b.Owns(c, w) && w.slot == k;
      if c in b.scopes[keep..] {
        var j :| keep <= j < |b.scopes| && b.scopes[j] == c;
        LeavingComplete(b, keep, |b.scopes|, j, w);
      }
      assert r.Owns(c, w);
    }
  }

  /** Locations of values in use are never refused by `emit_one`: registers stay below the limit. */
  lemma NeverBadRegister<S>(b: Builder<S>, values: seq<Value>)
    requires b.Valid() && b.Present(values) && b.InScope(values)
    ensures b.LocationsOf(values).Ok? && !b.BadRegister(b.LocationsOf(values).value)
  {
    forall i | 0 <= i < |values|
      ensures IntoBits(b.LocationsOf(values).value[i]) < b.MaxRegs()
    {
      assert values[i].scope in b.scopes;
      assert b.alloc.Holds(b.alloc.slots.Get(values[i].slot));
    }
  }

  lemma {:induction false} LeavingSnoc<S>(b: Builder<S>, keep: nat, n: nat)
    requires keep < n <= |b.scopes| && forall i :: 0 <= i < n ==> b.scopes[i] < |b.blocks|
    ensures b.Leaving(keep, n) == b.Leaving(keep + 1, n) + b.blocks[b.scopes[keep]].variables
    decreases n
  {
    if keep < n - 1 {
      LeavingSnoc(b, keep, n - 1);
    }
  }

  lemma DropOneMore(a: Alloc, values: seq<Value>, v: Value)
    requires a.Valid() && Droppable(a, values + [v])
    ensures Droppable(a, values) && DropAll(a, values).slots.Has(v.slot)
    ensures DropAll(a, values + [v]) == DropAll(a, values).Dropped(v.slot)
  {
    hide Alloc.Valid, Slab.Has;
    assert (values + [v])[..|values|] == values;
    forall i | 0 <= i < |values| ensures a.slots.Has(values[i].slot) && values[i].slot != v.slot {
      assert (values + [v])[i] == values[i] && (values + [v])[|values|] == v;
    }
    forall i, j | 0 <= i < j < |values| ensures values[i].slot != values[j].slot {
      assert (values + [v])[i] == values[i] && (values + [v])[j] == values[j];
    }
    assert (values + [v])[|values|] == v;
  }

  lemma DropNothing(a: Alloc)
    requires a.Valid()
    ensures Droppable(a, []) && DropAll(a, []) == a
  {
  }

  lemma DroppablePrefix(a: Alloc, values: seq<Value>, n: nat)
    requires Droppable(a, values) && n <= |values|
    ensures Droppable(a, values[..n])
  {
  }

  lemma NoParents<S>(b: Builder<S>, id: BlockId, jumps: seq<JumpScope>)
    requires id < |b.blocks| && b.InRange(jumps)
    ensures b.SetParents(id, jumps, 0) == b
  {
  }

  lemma SetParentsStep<S>(b: Builder<S>, id: BlockId, jumps: seq<JumpScope>, n: nat)
    requires id < |b.blocks| && n < |jumps| && b.InRange(jumps)
    ensures var r := b.SetParents(id, jumps, n);
      r.InRange([jumps[n]]) && b.SetParents(id, jumps, n + 1) == r.SetParentOf(id, jumps[n])
  {
    hide Builder.SetParentOf;
  }

  // ----- entering a block -----

  /** The scopes up to the parent of the block stay, and all behind them are left: exactly their variables are
      dropped. */
  ghost predicate Left<S>(b: Builder<S>, r: Builder<S>, keep: nat)
    requires keep <= |b.scopes|
  {
    && |r.blocks| == |b.blocks|
    && (forall c, v :: r.Owns(c, v) <==> b.Owns(c, v) && c !in b.scopes[keep..])
    && (forall c, v :: b.Owns(c, v) ==> (r.alloc.slots.Has(v.slot) <==> c !in b.scopes[keep..]))
    && (forall k :: r.alloc.slots.Has(k) ==> b.alloc.slots.Has(k) && r.alloc.slots.Get(k) == b.alloc.slots.Get(k))
  }

  /** What entering a block does: the entry is always entered, any other block behind its parent, if that is a scope. */
  lemma SwitchSpec<S>(b: Builder<S>, block: BlockId)
    requires b.Valid()
    ensures var (error, r) := b.SwitchTo(block);
      && (error == Some(UnresolvedBlockTarget) <==> block >= |b.blocks|)
      && (error == Some(BlockOutOfScope) <==>
            0 < block < |b.blocks| && (b.blocks[block].parent == None || b.blocks[block].parent.value !in b.scopes))
      && (error.Some? ==> r == b && error in {Some(UnresolvedBlockTarget), Some(BlockOutOfScope)})
      && (block == 0 < |b.blocks| ==> r == b.(scopes := b.scopes + [0]))
      && (error.None? && block != 0 ==>
            exists k: nat :: k < |b.scopes| && b.scopes[k] == b.blocks[block].parent.value
                             && r.scopes == b.scopes[..k + 1] + [block] && Left(b, r, k + 1))
  {
    hide Alloc.Valid, Slab.Has, Slab.Get, Builder.Owns, Builder.Exited, Left;
    var (error, r) := b.SwitchTo(block);
    if error.None? && block != 0 {
      var k := b.ScopeIndex(b.blocks[block].parent.value);
      ExitedLeft(b, r, k + 1);
      assert b.scopes[k] == b.blocks[block].parent.value;
    }
  }

  lemma ExitedLeft<S>(b: Builder<S>, r: Builder<S>, keep: nat)
    requires b.Valid() && keep <= |b.scopes|
    requires r.alloc == b.Exited(keep).alloc && r.blocks == b.Exited(keep).blocks
    ensures Left(b, r, keep)
  {
    hide Alloc.Valid, Slab.Has, Slab.Get, DropAll, Builder.Valid, Builder.Exited, Builder.Leaving;
    ExitedValid(b, keep);
    var t := b.Exited(keep);
    forall c, v ensures r.Owns(c, v) <==> b.Owns(c, v) && c !in b.scopes[keep..] {
      assert r.Owns(c, v) <==> t.Owns(c, v);
    }
    forall k | r.alloc.slots.Has(k) ensures b.alloc.slots.Has(k) && r.alloc.slots.Get(k) == b.alloc.slots.Get(k) {
      ExitedHad(b, keep, k);
    }
    forall c, v | b.Owns(c, v) ensures r.alloc.slots.Has(v.slot) <==> c !in b.scopes[keep..] {
      ExitedOwned(b, keep, c, v);
    }
  }

  /** What has a slot after leaving scopes had it before, at the same location. */
  lemma ExitedHad<S>(b: Builder<S>, keep: nat, k: nat)
    requires b.Valid() && keep <= |b.scopes| && b.Exited(keep).alloc.slots.Has(k)
    ensures b.alloc.slots.Has(k) && b.Exited(keep).alloc.slots.Get(k) == b.alloc.slots.Get(k)
    ensures forall i :: 0 <= i < |b.Leaving(keep, |b.scopes|)| ==> b.Leaving(keep, |b.scopes|)[i].slot != k
  {
    hide Alloc.Valid, Slab.Has, Slab.Get, DropAll, Builder.Leaving;
    LeavingDroppable(b, keep, |b.scopes|);
    DropAllLeaves(b.alloc, b.Leaving(keep, |b.scopes|), k);
  }

  lemma ExitedOwned<S>(b: Builder<S>, keep: nat, c: nat, v: Value)
    requires b.Valid() && keep <= |b.scopes| && b.Owns(c, v)
    ensures b.Exited(keep).alloc.slots.Has(v.slot) <==> c !in b.scopes[keep..]
  {
    hide Alloc.Valid, Slab.Has, Slab.Get, DropAll, Builder.Exited;
    if c in b.scopes[keep..] {
      var j :| keep <= j < |b.scopes| && b.scopes[j] == c;
      LeavingComplete(b, keep, |b.scopes|, j, v);
      if b.Exited(keep).alloc.slots.Has(v.slot) {
        ExitedHad(b, keep, v.slot);
      }
    } else {
      ExitedKeeps(b, keep, c, v);
    }
  }

  /** The slot freed last, and so used next, is that of the last variable of the outermost block that is left. */
  lemma {:induction false} LeftLast<S>(b: Builder<S>, keep: nat, j: nat)
    requires b.Valid() && keep <= j < |b.scopes| && b.blocks[b.scopes[j]].variables != []
    requires forall i :: keep <= i < j ==> b.blocks[b.scopes[i]].variables == []
    ensures var variables := b.blocks[b.scopes[j]].variables;
      b.Exited(keep).alloc.slots.NextKey() == variables[|variables| - 1].slot
    decreases j - keep
  {
    hide Alloc.Valid, Slab.Has, Slab.Get, Slab.Valid;
    LeavingSnoc(b, keep, |b.scopes|);
    LeavingDroppable(b, keep, |b.scopes|);
    if keep < j {
      LeftLast(b, keep + 1, j);
      LeavingDroppable(b, keep + 1, |b.scopes|);
      assert b.Leaving(keep, |b.scopes|) == b.Leaving(keep + 1, |b.scopes|);
    } else {
      LastDropped(b.alloc, b.Leaving(keep, |b.scopes|));
    }
  }

  lemma LastDropped(a: Alloc, values: seq<Value>)
    requires a.Valid() && Droppable(a, values) && values != []
    ensures DropAll(a, values).slots.NextKey() == values[|values| - 1].slot
  {
    hide Slab.Has, Slab.Get, Slab.Valid, Alloc.Valid;
    var (init, last) := (values[..|values| - 1], values[|values| - 1]);
    assert values == init + [last];
    DropOneMore(a, init, last);
    DroppedNext(DropAll(a, init), last.slot);
  }

  lemma DroppedNext(a: Alloc, slot: nat)
    requires a.Valid() && a.slots.Has(slot)
    ensures a.Dropped(slot).slots.NextKey() == slot
  {
  }

  // ----- where branches go -----

  /** Block `id` has one more stencil, with these operands and jumps; the code of all other blocks is as it was. */
  ghost predicate Recorded<S>(b: Builder<S>, r: Builder<S>, id: BlockId, stencil: S, inputs: seq<Value>,
                              outputs: seq<Value>, holes: seq<nat>, jumps: seq<JumpScope>)
    requires id < |b.blocks| && b.Present(inputs) && b.Present(outputs) && b.InScope(inputs) && b.InScope(outputs)
  {
    && |r.blocks| == |b.blocks|
    && (forall k :: 0 <= k < |b.blocks| && k != id ==> r.blocks[k].code == b.blocks[k].code)
    && var code := r.blocks[id].code;
       && |code| == |b.blocks[id].code| + 1 && code[..|b.blocks[id].code|] == b.blocks[id].code
       && var e := code[|b.blocks[id].code|];
          && e.stencil == stencil && e.holes == holes && |e.jumps| == |jumps|
          && |e.inputs| == |inputs| && |e.outputs| == |outputs|
          && (forall i :: 0 <= i < |inputs| ==> e.inputs[i] == b.alloc.slots.Get(inputs[i].slot))
          && (forall i :: 0 <= i < |outputs| ==> e.outputs[i] == b.alloc.slots.Get(outputs[i].slot))
          && (forall i :: 0 <= i < |jumps| ==>
                match jumps[i]
                case Next => e.jumps[i] == NextStencil
                case Child(c) => e.jumps[i] == Target(c)
                case Same(c) => e.jumps[i] == Target(c)
                case Parent(c, _) => e.jumps[i] == Target(c))
  }

  /** A branch that succeeds is recorded, and each of its jumps goes to the block that it names. */
  lemma BranchRecorded<S>(b: Builder<S>, id: BlockId, stencil: S, inputs: seq<Value>, outputs: seq<Value>,
                          holes: seq<nat>, jumps: seq<JumpScope>)
    requires id < |b.blocks| && b.Present(inputs) && b.Present(outputs) && b.InRange(jumps)
    ensures var (error, r) := b.Branch(id, stencil, inputs, outputs, holes, jumps);
      error.None? ==>
        b.InScope(inputs) && b.InScope(outputs) && Recorded(b, r, id, stencil, inputs, outputs, holes, jumps)
  {
    hide Slab.Has, Slab.Get, Builder.SetParents, Builder.BadRegister;
    var (prep, r) := b.BranchPrep(id, inputs, outputs, jumps);
    if prep.Ok? {
      var e := Emitted(stencil, prep.value.0, prep.value.1, holes, Targets(jumps));
      assert (r.blocks[id].code + [e])[..|b.blocks[id].code|] == b.blocks[id].code;
    }
  }

  /** The same for a branch that ends its block and enters another one. */
  lemma EndBranchRecorded<S>(b: Builder<S>, id: BlockId, stencil: S, inputs: seq<Value>, outputs: seq<Value>,
                             holes: seq<nat>, jumps: seq<JumpScope>, next: BlockId)
    requires b.Valid() && id < |b.blocks| && b.Present(inputs) && b.Present(outputs) && b.InRange(jumps)
    ensures var (error, r) := b.EndBranch(id, stencil, inputs, outputs, holes, jumps, next);
      error.None? ==>
        && b.InScope(inputs) && b.InScope(outputs) && r.blocks[id].ended
        && Recorded(b, r, id, stencil, inputs, outputs, holes, jumps)
  {
    hide Slab.Has, Slab.Get, Builder.SetParents, Builder.BadRegister, Builder.Valid, Builder.SwitchTo;
    var (prep, r) := b.BranchPrep(id, inputs, outputs, jumps);
    if prep.Ok? {
      var e := Emitted(stencil, prep.value.0, prep.value.1, holes, Targets(jumps));
      var (error, t) := r.Ended(id).EmitOne(id, e);
      if error.None? {
        assert (r.blocks[id].code + [e])[..|b.blocks[id].code|] == b.blocks[id].code;
        SameVariablesValid(b, t);
        SwitchKeepsCode(t, next);
      }
    }
  }

  /** A stencil that is emitted goes on to the next one; none is emitted to a block that has been ended. */
  lemma EmitRecorded<S>(b: Builder<S>, id: BlockId, stencil: S, inputs: seq<Value>, outputs: seq<Value>,
                        holes: seq<nat>)
    requires id < |b.blocks| && b.Present(inputs) && b.Present(outputs)
    ensures var (error, r) := b.Emit(id, stencil, inputs, outputs, holes);
      && (error == Some(VariableOutOfScope) <==> !(b.InScope(inputs) && b.InScope(outputs)))
      && (error == Some(AlreadyEnded) <==> b.InScope(inputs) && b.InScope(outputs) && b.blocks[id].ended)
      && (if error.Some? then r == b
          else b.InScope(inputs) && b.InScope(outputs)
               && Recorded(b, r, id, stencil, inputs, outputs, holes, [Next]))
  {
    hide Slab.Has, Slab.Get, Builder.BadRegister;
    if b.InScope(inputs) && b.InScope(outputs) {
      var e := Emitted(stencil, b.LocationsOf(inputs).value, b.LocationsOf(outputs).value, holes, [NextStencil]);
      assert (b.blocks[id].code + [e])[..|b.blocks[id].code|] == b.blocks[id].code;
    }
  }

  /** A return has no outputs and no jumps, and ends the block as soon as its values are in scope, also if it fails
      then. */
  lemma RetRecorded<S>(b: Builder<S>, id: BlockId, stencil: S, inputs: seq<Value>, holes: seq<nat>)
    requires id < |b.blocks| && b.Present(inputs)
    ensures var (error, r) := b.Ret(id, stencil, inputs, holes);
      && (error == Some(VariableOutOfScope) <==> !b.InScope(inputs))
      && (if b.InScope(inputs) then |r.blocks| == |b.blocks| && r.blocks[id].ended else r == b)
      && (error.None? ==> b.InScope(inputs) && Recorded(b, r, id, stencil, inputs, [], holes, []))
  {
    hide Slab.Has, Slab.Get, Builder.BadRegister;
    if b.InScope(inputs) {
      var e := Emitted(stencil, b.LocationsOf(inputs).value, [], holes, []);
      assert (b.blocks[id].code + [e])[..|b.blocks[id].code|] == b.blocks[id].code;
    }
  }

  lemma SwitchKeepsCode<S>(b: Builder<S>, block: BlockId)
    requires b.Valid()
    ensures var r := b.SwitchTo(block).1;
      && |r.blocks| == |b.blocks|
      && forall k :: 0 <= k < |b.blocks| ==>
           r.blocks[k].code == b.blocks[k].code && r.blocks[k].ended == b.blocks[k].ended
  {
    hide Builder.Valid;
  }

  /** The jump goes to block `c`. */
  predicate GoesTo(jump: JumpScope, c: nat) {
    match jump
    case Next => false
    case Child(b) => b == c
    case Same(b) => b == c
    case Parent(to, _) => to == c
  }

  /** The jumps go to different blocks, and not back to block `id`. */
  ghost predicate Apart(jumps: seq<JumpScope>, id: BlockId) {
    && (forall i :: 0 <= i < |jumps| ==> !GoesTo(jumps[i], id))
    && forall i, j, c: nat :: 0 <= i < j < |jumps| && GoesTo(jumps[i], c) ==> !GoesTo(jumps[j], c)
  }

  /** The parent that a target gets: a child that of the branching block, a sibling the same as that has, or else the
      entry, and the block of a jump out of a scope the one it is given. */
  predicate ParentSet<S>(b: Builder<S>, r: Builder<S>, id: BlockId, jump: JumpScope)
    requires id < |b.blocks| == |r.blocks| && b.InRange([jump])
  {
    assert [jump][0] == jump;
    match jump
    case Next => true
    case Child(c) => r.blocks[c].parent == Some(id)
    case Same(c) => r.blocks[c].parent == if b.blocks[id].parent == None then Some(0) else b.blocks[id].parent
    case Parent(c, parent) => r.blocks[c].parent == Some(parent)
  }

  lemma {:induction false} ParentsAre<S>(b: Builder<S>, id: BlockId, jumps: seq<JumpScope>, n: nat)
    requires id < |b.blocks| && n <= |jumps| && b.InRange(jumps) && Apart(jumps, id)
    ensures var r := b.SetParents(id, jumps, n);
      && r.blocks[id].parent == b.blocks[id].parent
      && (forall i :: 0 <= i < n ==> b.InRange([jumps[i]]) && ParentSet(b, r, id, jumps[i]))
      && (forall c :: 0 <= c < |b.blocks| && (forall i :: 0 <= i < n ==> !GoesTo(jumps[i], c)) ==>
            r.blocks[c].parent == b.blocks[c].parent)
  {
    hide Builder.SetParentOf, ParentSet;
    if n == 0 {
      NoParents(b, id, jumps);
    } else {
      ParentsAre(b, id, jumps, n - 1);
      SetParentsStep(b, id, jumps, n - 1);
      var (before, jump) := (b.SetParents(id, jumps, n - 1), jumps[n - 1]);
      OneParent(b, before, id, jump);
      forall i | 0 <= i < n ensures b.InRange([jumps[i]]) && ParentSet(b, b.SetParents(id, jumps, n), id, jumps[i]) {
        if i < n - 1 {
          ParentStays(b, before, id, jumps[i], jump);
        }
      }
    }
  }

  lemma OneParent<S>(b: Builder<S>, r: Builder<S>, id: BlockId, jump: JumpScope)
    requires id < |b.blocks| == |r.blocks| && b.InRange([jump]) && r.InRange([jump])
    requires r.blocks[id].parent == b.blocks[id].parent && !GoesTo(jump, id)
    ensures ParentSet(b, r.SetParentOf(id, jump), id, jump)
    ensures forall c :: 0 <= c < |b.blocks| && !GoesTo(jump, c) ==>
      r.SetParentOf(id, jump).blocks[c].parent == r.blocks[c].parent
  {
    assert [jump][0] == jump;
  }

  lemma ParentStays<S>(b: Builder<S>, r: Builder<S>, id: BlockId, earlier: JumpScope, jump: JumpScope)
    requires id < |b.blocks| == |r.blocks| && b.InRange([earlier]) && r.InRange([jump]) && ParentSet(b, r, id, earlier)
    requires forall c: nat :: GoesTo(earlier, c) ==> !GoesTo(jump, c)
    ensures ParentSet(b, r.SetParentOf(id, jump), id, earlier)
  {
    assert [jump][0] == jump && [earlier][0] == earlier;
    assert match earlier
      case Next => true
      case Child(c) => GoesTo(earlier, c)
      case Same(c) => GoesTo(earlier, c)
      case Parent(c, _) => GoesTo(earlier, c);
  }

  /** A branch to different blocks sets their parents, and no others, as soon as its values are in scope. */
  lemma BranchParents<S>(b: Builder<S>, id: BlockId, stencil: S, inputs: seq<Value>, outputs: seq<Value>,
                         holes: seq<nat>, jumps: seq<JumpScope>)
    requires id < |b.blocks| && b.Present(inputs) && b.Present(outputs) && b.InRange(jumps)
    requires b.InScope(inputs) && b.InScope(outputs) && Apart(jumps, id)
    ensures var r := b.Branch(id, stencil, inputs, outputs, holes, jumps).1;
      && |r.blocks| == |b.blocks|
      && (forall i :: 0 <= i < |jumps| ==> b.InRange([jumps[i]]) && ParentSet(b, r, id, jumps[i]))
      && (forall c :: 0 <= c < |b.blocks| && (forall i :: 0 <= i < |jumps| ==> !GoesTo(jumps[i], c)) ==>
            r.blocks[c].parent == b.blocks[c].parent)
  {
    hide Slab.Has, Slab.Get, Builder.SetParents, Builder.BadRegister, GoesTo, Apart;
    ParentsAre(b, id, jumps, |jumps|);
    var (t, r) := (b.SetParents(id, jumps, |jumps|), b.Branch(id, stencil, inputs, outputs, holes, jumps).1);
    assert forall c :: 0 <= c < |b.blocks| ==> r.blocks[c].parent == t.blocks[c].parent;
  }

  /** What keeps a branch from being recorded, in the order in which it is found out. */
  lemma BranchErrors<S>(b: Builder<S>, id: BlockId, stencil: S, inputs: seq<Value>, outputs: seq<Value>,
                        holes: seq<nat>, jumps: seq<JumpScope>)
    requires id < |b.blocks| && b.Present(inputs) && b.Present(outputs) && b.InRange(jumps)
    ensures var (error, r) := b.Branch(id, stencil, inputs, outputs, holes, jumps);
      && (error == Some(VariableOutOfScope) <==> !(b.InScope(inputs) && b.InScope(outputs)))
      && (error == Some(BlockOutOfScope) <==>
            b.InScope(inputs) && b.InScope(outputs)
            && exists i :: 0 <= i < |jumps| && jumps[i].Parent? && jumps[i].parent !in b.scopes)
      && (error == Some(VariableOutOfScope) ==> r == b)
  {
    hide Slab.Has, Slab.Get, Builder.SetParents, Builder.BadRegister, Builder.InScope;
  }

  // ----- the builder -----

  class FunctionBuilder<!S> {
    const has: Emitted<S> -> bool
    const allocator: Allocator
    var blocks: seq<BlockScope<S>>
    var scopes: seq<BlockId>
    /** The blocks that have been switched to, in order. */
    ghost var entries: seq<BlockId>

    function View(): Builder<S>
      reads this, allocator
    {
      Builder(has, allocator.View(), blocks, scopes)
    }

    ghost predicate Valid()
      reads this, allocator
    {
      View().Valid()
    }

    /** A builder with one block, the entry, that no scope has been opened for. */
    constructor (has: Emitted<S> -> bool, maxRegs: nat)
      requires 1 <= maxRegs <= 0x1_0000
      ensures Valid() && fresh(allocator) && this.has == has
      ensures View() == Builder(has, allocator.View(), [NewBlock()], [])
      ensures allocator.View().regs == maxRegs - 1 && allocator.slots == Empty() && allocator.View().NoLeak()
      ensures allocator.stackSize == 0 && |allocator.registers.vacant| == maxRegs - 1 && entries == []
      ensures forall i :: 0 <= i < maxRegs - 1 ==> allocator.registers.vacant[i] == i
    {
      this.has := has;
      allocator := new Allocator(maxRegs - 1);
      blocks := [NewBlock()];
      scopes := [];
      entries := [];
      new;
      assert forall b, v :: !View().Owns(b, v);
    }

    method CreateBlock() returns (id: BlockId)
      requires Valid() && |blocks| < U16_MAX
      modifies this`blocks
      ensures Valid() && View() == old(View()).CreateBlock() && id == |old(blocks)|
    {
      ghost var before := View();
      blocks := blocks + [NewBlock()];
      id := |blocks| % 0x1_0000 - 1;
      assert forall b, v :: View().Owns(b, v) <==> before.Owns(b, v);
    }

    method PositionOf(block: BlockId) returns (index: nat)
      ensures index == View().ScopeIndex(block)
    {
      index := 0;
      while index < |scopes| && scopes[index] != block
        invariant index <= |scopes|
        invariant IndexOf(scopes, block) == index + IndexOf(scopes[index..], block)
      {
        assert scopes[index..][1..] == scopes[index + 1..];
        index := index + 1;
      }
    }

    method SwitchToBlock(block: BlockId) returns (error: Option<PatchError>)
      requires Valid()
      modifies this, allocator
      ensures old(View()).SwitchTo(block) == (error, View())
      ensures entries == old(entries) + if error.None? then [block] else []
    {
      hide Alloc.Valid, Slab.Has, Slab.Get, Builder.Owns, Builder.Exited, Builder.Valid;
      if block >= |blocks| {
        return Some(UnresolvedBlockTarget);
      }
      if block != 0 {
        if blocks[block].parent.None? {
          return Some(BlockOutOfScope);
        }
        var index := PositionOf(blocks[block].parent.value);
        if index == |scopes| {
          return Some(BlockOutOfScope);
        }
        DrainScopes(index + 1);
        scopes := scopes[..index + 1];
      }
      scopes := scopes + [block];
      entries := entries + [block];
      return None;
    }

    /** Drops the variables of all scopes from the innermost down to number `keep`. */
    method DrainScopes(keep: nat)
      requires Valid() && keep <= |scopes|
      modifies this`blocks, allocator
      ensures View() == old(View()).Exited(keep)
    {
      hide Droppable, DropAll, Alloc.Valid, Slab.Has;
      ghost var before := View();
      var n := |scopes|;
      var i := n;
      DropNothing(before.alloc);
      LeavingDroppable(before, n, n);
      assert before.Cleared(scopes[n..]) == blocks;
      while i > keep
        invariant keep <= i <= n
        invariant Droppable(before.alloc, before.Leaving(i, n))
        invariant View() == before.(alloc := DropAll(before.alloc, before.Leaving(i, n)),
            blocks := before.Cleared(scopes[i..]))
      {
        i := i - 1;
        LeavingDroppable(before, i, n);
        LeavingSnoc(before, i, n);
        DrainScope(i, before);
      }
    }

    /** Drops the variables of scope `i`, when those of the scopes inside it have been dropped since `before`. */
    method DrainScope(i: nat, ghost before: Builder<S>)
      requires before.Valid() && i < |scopes| && before.scopes == scopes
      requires Droppable(before.alloc, before.Leaving(i, |scopes|))
      requires Droppable(before.alloc, before.Leaving(i + 1, |scopes|))
      requires before.Leaving(i, |scopes|) == before.Leaving(i + 1, |scopes|) + before.blocks[scopes[i]].variables
      requires View() == before.(alloc := DropAll(before.alloc, before.Leaving(i + 1, |scopes|)),
                                 blocks := before.Cleared(scopes[i + 1..]))
      modifies this`blocks, allocator
      ensures View() == before.(alloc := DropAll(before.alloc, before.Leaving(i, |scopes|)),
                                blocks := before.Cleared(scopes[i..]))
    {
      hide Droppable, DropAll, Alloc.Valid, Slab.Has, Builder.Leaving;
      var c := scopes[i];
      assert c !in scopes[i + 1..];
      var variables := blocks[c].variables;
      blocks := blocks[c := blocks[c].(variables := [])];
      assert scopes[i..] == [c] + scopes[i + 1..];
      assert blocks == before.Cleared(scopes[i..]);
      DropValues(variables, before.alloc, before.Leaving(i + 1, |scopes|));
    }

    /** Drops values one by one; `gone` have been dropped from `start` before. */
    method DropValues(values: seq<Value>, ghost start: Alloc, ghost gone: seq<Value>)
      requires start.Valid() && Droppable(start, gone + values) && Droppable(start, gone)
      requires allocator.View() == DropAll(start, gone)
      modifies allocator
      ensures allocator.View() == DropAll(start, gone + values)
    {
      hide Droppable, DropAll, Alloc.Valid, Alloc.Dropped, Slab.Has;
      assert gone + values[..0] == gone;
      for j := 0 to |values|
        invariant Droppable(start, gone + values[..j])
        invariant allocator.View() == DropAll(start, gone + values[..j])
      {
        assert (gone + values)[..|gone| + j + 1] == gone + values[..j] + [values[j]];
        DroppablePrefix(start, gone + values, |gone| + j + 1);
        DropOneMore(start, gone + values[..j], values[j]);
        allocator.Drop(values[j]);
        assert gone + values[..j + 1] == gone + values[..j] + [values[j]];
      }
      assert values[..|values|] == values;
    }

    method NewVariable(id: BlockId) returns (r: Result<Value, PatchError>)
      requires Valid() && id < |blocks|
      modifies this`blocks, allocator
      ensures Valid() && old(View()).NewVariable(id) == (r, View())
    {
      NewVariableValid(View(), id);
      var value := allocator.Allocate(id);
      if value.None? {
        return Err(OutOfVariables);
      }
      blocks := blocks[id := blocks[id].(variables := blocks[id].variables + [value.value])];
      return Ok(value.value);
    }

    method NewParam(id: BlockId) returns (r: Result<Value, PatchError>)
      requires Valid() && id < |blocks|
      modifies this`blocks, allocator
      ensures Valid() && old(View()).NewParam(id) == (r, View())
    {
      if blocks[id].parent.Some? {
        return Err(InvalidParams);
      }
      r := NewVariable(id);
    }

    /** The locations of values, unless one of them is out of scope. */
    method Locate(values: seq<Value>) returns (r: Result<seq<Location>, PatchError>)
      requires View().Present(values)
      ensures r == View().LocationsOf(values)
    {
      for i := 0 to |values|
        invariant forall j :: 0 <= j < i ==> values[j].scope in scopes
      {
        if values[i].scope !in scopes {
          return Err(VariableOutOfScope);
        }
      }
      var locations := [];
      for i := 0 to |values|
        invariant |locations| == i
        invariant forall j :: 0 <= j < i ==> locations[j] == allocator.View().slots.Get(values[j].slot)
      {
        locations := locations + [allocator.LocationOf(values[i])];
      }
      assert locations == View().LocationsOf(values).value;
      return Ok(locations);
    }

    method EmitOne(id: BlockId, e: Emitted<S>) returns (error: Option<PatchError>)
      requires id < |blocks|
      modifies this`blocks
      ensures old(View()).EmitOne(id, e) == (error, View())
    {
      if View().BadRegister(e.inputs) || View().BadRegister(e.outputs) {
        return Some(InvalidRegister);
      }
      if !has(e) {
        return Some(StencilNotFound);
      }
      blocks := blocks[id := blocks[id].(code := blocks[id].code + [e])];
      return None;
    }

    method Emit(id: BlockId, stencil: S, inputs: seq<Value>, outputs: seq<Value>, holes: seq<nat>)
      returns (error: Option<PatchError>)
      requires Valid() && id < |blocks| && View().Present(inputs) && View().Present(outputs)
      modifies this`blocks
      ensures Valid() && old(View()).Emit(id, stencil, inputs, outputs, holes) == (error, View())
    {
      ghost var before := View();
      var ins := Locate(inputs);
      if ins.Err? {
        return Some(ins.error);
      }
      var outs := Locate(outputs);
      if outs.Err? {
        return Some(outs.error);
      }
      if blocks[id].ended {
        return Some(AlreadyEnded);
      }
      error := EmitOne(id, Emitted(stencil, ins.value, outs.value, holes, [NextStencil]));
      SameVariablesValid(before, View());
    }

    method BranchPrep(id: BlockId, inputs: seq<Value>, outputs: seq<Value>, jumps: seq<JumpScope>)
      returns (r: Result<(seq<Location>, seq<Location>, seq<JumpTarget>), PatchError>)
      requires Valid() && id < |blocks| && View().Present(inputs) && View().Present(outputs) && View().InRange(jumps)
      modifies this`blocks
      ensures old(View()).BranchPrep(id, inputs, outputs, jumps).1 == View() && Valid()
      ensures match old(View()).BranchPrep(id, inputs, outputs, jumps).0
              case Err(e) => r == Err(e)
              case Ok(p) => r == Ok((p.0, p.1, Targets(jumps)))
    {
      hide Alloc.Valid, Slab.Has, Builder.Owns, Builder.Valid, Builder.LocationsOf, Builder.Present, TargetOf, Distinct,
           Builder.SetParents;
      ghost var before := View();
      var ins := Locate(inputs);
      if ins.Err? {
        return Err(ins.error);
      }
      var outs := Locate(outputs);
      if outs.Err? {
        return Err(outs.error);
      }
      var outOfScope := false;
      var targets := [];
      NoParents(before, id, jumps);
      for i := 0 to |jumps|
        invariant View() == before.SetParents(id, jumps, i)
        invariant outOfScope <==> exists j :: 0 <= j < i && jumps[j].Parent? && jumps[j].parent !in scopes
        invariant |targets| == i && forall j :: 0 <= j < i ==> targets[j] == TargetOf(jumps[j])
      {
        SetParentsStep(before, id, jumps, i);
        match jumps[i] {
          case Next =>
          case Child(b) =>
            blocks := blocks[b := blocks[b].(parent := Some(id))];
          case Same(b) =>
            var parent := blocks[id].parent;
            blocks := blocks[b := blocks[b].(parent := if parent.Some? then parent else Some(0))];
          case Parent(to, parent) =>
            if parent !in scopes {
              outOfScope := true;
            }
            blocks := blocks[to := blocks[to].(parent := Some(parent))];
        }
        targets := targets + [TargetOf(jumps[i])];
      }
      SameVariablesValid(before, View());
      assert targets == Targets(jumps);
      if outOfScope {
        return Err(BlockOutOfScope);
      }
      return Ok((ins.value, outs.value, targets));
    }

    method Branch(id: BlockId, stencil: S, inputs: seq<Value>, outputs: seq<Value>, holes: seq<nat>,
                  jumps: seq<JumpScope>)
      returns (error: Option<PatchError>)
      requires Valid() && id < |blocks| && View().Present(inputs) && View().Present(outputs) && View().InRange(jumps)
      modifies this`blocks
      ensures Valid() && old(View()).Branch(id, stencil, inputs, outputs, holes, jumps) == (error, View())
    {
      ghost var before := View();
      var prep := BranchPrep(id, inputs, outputs, jumps);
      if prep.Err? {
        return Some(prep.error);
      }
      error := EmitOne(id, Emitted(stencil, prep.value.0, prep.value.1, holes, prep.value.2));
      SameVariablesValid(before, View());
    }

    /** Ends the block with a branch, and enters `next`. */
    method EndBranch(id: BlockId, stencil: S, inputs: seq<Value>, outputs: seq<Value>, holes: seq<nat>,
                     jumps: seq<JumpScope>, next: BlockId) returns (error: Option<PatchError>)
      requires Valid() && id < |blocks| && View().Present(inputs) && View().Present(outputs) && View().InRange(jumps)
      modifies this, allocator
      ensures old(View()).EndBranch(id, stencil, inputs, outputs, holes, jumps, next) == (error, View())
      ensures entries == old(entries) + if error.None? then [next] else []
    {
      ghost var before := View();
      var prep := BranchPrep(id, inputs, outputs, jumps);
      if prep.Err? {
        return Some(prep.error);
      }
      blocks := blocks[id := blocks[id].(ended := true)];
      error := EmitOne(id, Emitted(stencil, prep.value.0, prep.value.1, holes, prep.value.2));
      if error.Some? {
        return;
      }
      SameVariablesValid(before, View());
      error := SwitchToBlock(next);
    }

    method Ret(id: BlockId, stencil: S, inputs: seq<Value>, holes: seq<nat>) returns (error: Option<PatchError>)
      requires Valid() && id < |blocks| && View().Present(inputs)
      modifies this`blocks
      ensures Valid() && old(View()).Ret(id, stencil, inputs, holes) == (error, View())
    {
      ghost var before := View();
      var ins := Locate(inputs);
      if ins.Err? {
        return Some(ins.error);
      }
      blocks := blocks[id := blocks[id].(ended := true)];
      error := EmitOne(id, Emitted(stencil, ins.value, [], holes, []));
      SameVariablesValid(before, View());
    }
  }
}
