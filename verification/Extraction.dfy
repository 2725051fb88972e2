/** Building the table of a stencil family from its functions (`crates/patchouly-build/src/extract.rs`), and what the
    runtime then selects (`crates/patchouly-core/src/stencils.rs`). */
module Extraction {
  import opened Wrappers
  import opened Words
  import opened Locations
  import opened Relocations
  import opened Stencils
  import opened Permutations

  /** A stencil function: its operand locations and width, where its code is, and its relocations. */
  datatype Function = Function(
    inputs: seq<Location>,
    outputs: seq<Location>,
    wide: bool,
    codeStart: nat,
    codeLen: nat,
    relocations: seq<Relocation>)
  {
    function Index(maxRegs: nat): nat {
      TableIndex(inputs, outputs, maxRegs, wide)
    }
  }

  datatype BuildError = FamilyMismatch | TooLarge

  function Bits(locations: seq<Location>): (r: seq<nat>)
    ensures |r| == |locations| && forall i :: 0 <= i < |r| ==> r[i] == IntoBits(locations[i])
  {
    seq(|locations|, i requires 0 <= i < |locations| => IntoBits(locations[i]))
  }

  /** One more than the largest identifier of a kind. */
  function CountOf(relocations: seq<Relocation>, kind: PatchKind): nat {
    if relocations == [] then 0
    else
      var (before, last) := (CountOf(relocations[..|relocations| - 1], kind), relocations[|relocations| - 1]);
      if last.kind == kind && last.id + 1 > before then last.id + 1 else before
  }

  lemma {:induction false} CountOfBounds(relocations: seq<Relocation>, kind: PatchKind)
    ensures forall i ::
      0 <= i < |relocations| && relocations[i].kind == kind ==>
          relocations[i].id < CountOf(relocations, kind)
  {
    if relocations != [] {
      CountOfBounds(relocations[..|relocations| - 1], kind);
    }
  }

  predicate NoneInvalid(relocations: seq<Relocation>) {
    forall i :: 0 <= i < |relocations| ==> !relocations[i].IsInvalid()
  }

  // ----- the pool of relocations -----

  /** Reading from `index` gives `list`. */
  predicate ListIs(data: seq<Relocation>, index: nat, list: seq<Relocation>) {
    index <= |data| && ListAt(data, index) == list && Terminated(data, index)
  }

  /** Appending to the pool does not change the lists that end in it. */
  lemma PoolGrows(data: seq<Relocation>, more: seq<Relocation>, index: nat, list: seq<Relocation>)
    requires ListIs(data, index, list)
    ensures ListIs(data + more, index, list)
  {
    ListAtBasics(data, index);
    var all := data + more;
    assert all[index..index + |list|] == data[index..index + |list|];
    ListAtIs(all, index, list);
  }

  lemma PoolAppend(data: seq<Relocation>, list: seq<Relocation>)
    requires NoneInvalid(list)
    ensures ListIs(data + list + [SENTINEL], |data|, list)
  {
    var all := data + list + [SENTINEL];
    assert all[|data|..|data| + |list|] == list;
    assert all[|data| + |list|] == SENTINEL;
    ListAtIs(all, |data|, list);
  }

  // ----- the table -----

  /** The table entry stands for the function. */
  ghost predicate EntryIs(data: seq<Relocation>, s: Stencil, f: Function) {
    s.codeIndex == f.codeStart && s.codeLen == f.codeLen && ListIs(data, s.relocationIndex, f.relocations)
  }

  predicate InTable(f: Function, ins: nat, outs: nat, maxRegs: nat, holes: nat) {
    |f.inputs| == ins && |f.outputs| == outs && Encodable(f.inputs + f.outputs, maxRegs) && (f.wide ==> holes > 0)
  }

  function TableLen(ins: nat, outs: nat, maxRegs: nat, holes: nat): nat {
    (if holes > 0 then 2 else 1) * StencilsLen(ins, outs, maxRegs)
  }

  lemma IndexInTable(f: Function, ins: nat, outs: nat, maxRegs: nat, holes: nat)
    requires maxRegs > 0 && InTable(f, ins, outs, maxRegs, holes)
    ensures f.Index(maxRegs) < TableLen(ins, outs, maxRegs, holes)
  {
    hide IoIndex, Power, Encodable;
    LossyRoundTrip(f.inputs, f.outputs, maxRegs, f.wide);
  }

  const U32_LIMIT: nat := 0x1_0000_0000

  /** The pool starts with a list of the family. */
  predicate PoolStarts(data: seq<Relocation>, holes: nat) {
    Terminated(data, 0) && CountOf(ListAt(data, 0), Hole) <= holes
  }

  // ----- what is refused -----

  /** Where a list goes: where it is already, or behind the pool. */
  function StartFor(data: seq<Relocation>, existing: map<seq<Relocation>, nat>, list: seq<Relocation>): nat {
    if list in existing then existing[list] else |data|
  }

  function PoolWith(data: seq<Relocation>, existing: map<seq<Relocation>, nat>,
                    list: seq<Relocation>): seq<Relocation> {
    if list in existing then data else data + list + [SENTINEL]
  }

  /** The numbers of operands, holes and jumps are those of the family. */
  predicate Matching(f: Function, ins: nat, outs: nat, holes: nat, jumps: nat) {
    |f.inputs| == ins && |f.outputs| == outs && CountOf(f.relocations, Hole) <= holes
    && CountOf(f.relocations, PatchKind.Target) <= jumps
  }

  /** The fields of a table entry have 32 bits for where the code is, and 16 for its length and its first relocation. */
  predicate Storable(f: Function, start: nat) {
    f.codeStart < U32_LIMIT && f.codeLen < U16_LIMIT && start < U16_LIMIT
  }

  /** The table entries stand for the functions that have been added, each at its own index. */
  ghost predicate EntriesOk(data: seq<Relocation>, stencils: seq<Stencil>, entries: map<nat, Function>, ins: nat,
                            outs: nat, maxRegs: nat, holes: nat) {
    && (forall i :: i in entries ==> i < |stencils| && EntryIs(data, stencils[i], entries[i]))
    && (forall i :: i in entries ==> entries[i].Index(maxRegs) == i && InTable(entries[i], ins, outs, maxRegs, holes))
    && (forall i :: i in entries ==> CountOf(entries[i].relocations, Hole) <= holes)
    && (forall i :: 0 <= i < |stencils| && i !in entries ==> stencils[i] == NO_STENCIL)
  }

  lemma EntryAdded(data: seq<Relocation>, stencils: seq<Stencil>, entries: map<nat, Function>, ins: nat, outs: nat,
                   maxRegs: nat, holes: nat, f: Function, stencil: Stencil)
    requires EntriesOk(data, stencils, entries, ins, outs, maxRegs, holes)
    requires EntryIs(data, stencil, f) && InTable(f, ins, outs, maxRegs, holes) && CountOf(f.relocations, Hole) <= holes
    requires f.Index(maxRegs) < |stencils|
    ensures var index := f.Index(maxRegs);
      EntriesOk(data, stencils[index := stencil], entries[index := f], ins, outs, maxRegs, holes)
  {
    hide EntryIs, InTable, CountOf, Function.Index;
  }

  class StencilFamilyBuilder {
    const ins: nat
    const outs: nat
    const maxRegs: nat
    const holes: nat
    const jumps: nat
    var relocationData: seq<Relocation>
    var stencils: seq<Stencil>
    /** The lists that are in the pool already, and where. */
    var existing: map<seq<Relocation>, nat>
    /** The last function added for each table index. */
    ghost var entries: map<nat, Function>

    ghost predicate Valid()
      reads this
    {
      && maxRegs > 0 && |stencils| == TableLen(ins, outs, maxRegs, holes)
      && (forall list :: list in existing ==> ListIs(relocationData, existing[list], list))
      && EntriesOk(relocationData, stencils, entries, ins, outs, maxRegs, holes)
      && (relocationData != [] ==> PoolStarts(relocationData, holes))
    }

    constructor (ins: nat, outs: nat, maxRegs: nat, holes: nat, jumps: nat)
      requires maxRegs > 0
      ensures Valid() && entries == map[] && relocationData == [] && existing == map[]
      ensures this.ins == ins && this.outs == outs && this.maxRegs == maxRegs && this.holes == holes
      ensures this.jumps == jumps
    {
      this.ins, this.outs, this.maxRegs, this.holes, this.jumps := ins, outs, maxRegs, holes, jumps;
      var newLen := StencilsLen(ins, outs, maxRegs);
      if holes > 0 {
        newLen := newLen * 2;
      }
      stencils := seq(newLen, _ => NO_STENCIL);
      relocationData, existing, entries := [], map[], map[];
    }

    /** Where the list is in the pool; it is put there first if it is not there yet. */
    method PoolIndex(list: seq<Relocation>) returns (start: nat)
      requires Valid() && NoneInvalid(list) && CountOf(list, Hole) <= holes
      modifies `relocationData, `existing
      ensures Valid() && old(relocationData) <= relocationData && relocationData != []
      ensures ListIs(relocationData, start, list) && start < |relocationData|
      ensures start == StartFor(old(relocationData), old(existing), list)
      ensures relocationData == PoolWith(old(relocationData), old(existing), list)
      ensures existing == old(existing)[list := start]
    {
      hide TableIndex, ListIs, CountOf, TableLen, Encodable, EntryIs, InTable, PoolStarts;
      if list in existing {
        start := existing[list];
      } else {
        start := |relocationData|;
        AllStay(relocationData, list, existing, entries, stencils);
        PoolAppend(relocationData, list);
        StartStays(relocationData, list, holes);
        relocationData := relocationData + list + [SENTINEL];
        existing := existing[list := start];
      }
      StartBelow(relocationData, start, list);
    }

    /** Puts a function into the table; its relocations go into the pool, unless the same list is there already. */
    method AddStencil(f: Function) returns (r: Result<(), BuildError>)
      requires Valid() && NoneInvalid(f.relocations)
      requires Encodable(f.inputs + f.outputs, maxRegs) && (f.wide ==> holes > 0)
      modifies this
      ensures Valid() && old(relocationData) <= relocationData
      ensures r.Ok? <==>
        && Matching(f, ins, outs, holes, jumps)
        && Storable(f, StartFor(old(relocationData), old(existing), f.relocations))
      ensures r.Err? ==> r.error == if Matching(f, ins, outs, holes, jumps) then TooLarge else FamilyMismatch
      ensures r == Err(FamilyMismatch) ==> unchanged(this)
      ensures r.Err? ==> entries == old(entries) && stencils == old(stencils)
      ensures r.Ok? ==> entries == old(entries)[f.Index(maxRegs) := f] && relocationData != []
      ensures r.Ok? ==>
        && relocationData == PoolWith(old(relocationData), old(existing), f.relocations)
        && existing == old(existing)[f.relocations := StartFor(old(relocationData), old(existing), f.relocations)]
    {
      hide TableIndex, ListIs, CountOf, TableLen, Encodable, EntryIs, InTable, StencilsLen, PoolStarts, PoolWith,
           StartFor, NoneInvalid, EntriesOk;
      if ins != |f.inputs| || outs != |f.outputs| || holes < CountOf(f.relocations, Hole)
          || jumps < CountOf(f.relocations, PatchKind.Target) {
        return Err(FamilyMismatch);
      }
      assert InTable(f, ins, outs, maxRegs, holes) by {
        TableFits(f, ins, outs, maxRegs, holes);
      }
      IndexInTable(f, ins, outs, maxRegs, holes);
      var start := PoolIndex(f.relocations);
      if f.codeStart >= U32_LIMIT || f.codeLen >= U16_LIMIT || start >= U16_LIMIT {
        return Err(TooLarge);
      }
      var stencil := Stencil(f.codeStart, f.codeLen, start);
      var index := IoToIndex(f.inputs, f.outputs, maxRegs, f.wide);
      assert index == f.Index(maxRegs);
      EntryMade(relocationData, stencil, f);
      EntryAdded(relocationData, stencils, entries, ins, outs, maxRegs, holes, f, stencil);
      stencils := stencils[index := stencil];
      entries := entries[index := f];
      return Ok(());
    }
  }

  lemma TableFits(f: Function, ins: nat, outs: nat, maxRegs: nat, holes: nat)
    requires |f.inputs| == ins && |f.outputs| == outs && Encodable(f.inputs + f.outputs, maxRegs)
    requires (f.wide ==> holes > 0)
    ensures InTable(f, ins, outs, maxRegs, holes)
  {
  }

  lemma EntryMade(data: seq<Relocation>, s: Stencil, f: Function)
    requires s.codeIndex == f.codeStart && s.codeLen == f.codeLen && ListIs(data, s.relocationIndex, f.relocations)
    ensures EntryIs(data, s, f)
  {
  }

  lemma StartStays(data: seq<Relocation>, list: seq<Relocation>, holes: nat)
    requires NoneInvalid(list) && CountOf(list, Hole) <= holes
    requires data != [] ==> PoolStarts(data, holes)
    ensures PoolStarts(data + list + [SENTINEL], holes)
  {
    hide CountOf, ListAt, Terminated;
    assert data + list + [SENTINEL] == data + (list + [SENTINEL]);
    if data == [] {
      PoolAppend(data, list);
    } else {
      PoolGrows(data, list + [SENTINEL], 0, ListAt(data, 0));
    }
  }

  lemma StartBelow(data: seq<Relocation>, start: nat, list: seq<Relocation>)
    requires ListIs(data, start, list)
    ensures start < |data|
  {
  }

  lemma AllStay(data: seq<Relocation>, list: seq<Relocation>, existing: map<seq<Relocation>, nat>,
                entries: map<nat, Function>, stencils: seq<Stencil>)
    requires forall l :: l in existing ==> ListIs(data, existing[l], l)
    requires forall i :: i in entries ==> i < |stencils| && EntryIs(data, stencils[i], entries[i])
    ensures forall l :: l in existing ==> ListIs(data + list + [SENTINEL], existing[l], l)
    ensures forall i :: i in entries ==> EntryIs(data + list + [SENTINEL], stencils[i], entries[i])
  {
    hide ListIs;
    assert data + list + [SENTINEL] == data + (list + [SENTINEL]);
    forall l | l in existing ensures ListIs(data + list + [SENTINEL], existing[l], l) {
      PoolGrows(data, list + [SENTINEL], existing[l], l);
    }
    forall i | i in entries ensures EntryIs(data + list + [SENTINEL], stencils[i], entries[i]) {
      PoolGrows(data, list + [SENTINEL], stencils[i].relocationIndex, entries[i].relocations);
    }
  }

  // ----- the whole family -----

  /** The table holds these functions, and nothing else. */
  ghost predicate BuiltFrom(f: Family, functions: seq<Function>) {
    && f.maxRegs > 0 && |f.stencils| == TableLen(f.ins, f.outs, f.maxRegs, f.holes)
    && (forall k :: 0 <= k < |functions| ==> Holding(f, functions[k]))
    && (forall i ::
         0 <= i < |f.stencils| && !(exists k :: 0 <= k < |functions| && functions[k].Index(f.maxRegs) == i)
         ==> f.stencils[i] == NO_STENCIL)
  }

  ghost predicate Holding(f: Family, g: Function) {
    && InTable(g, f.ins, f.outs, f.maxRegs, f.holes) && CountOf(g.relocations, Hole) <= f.holes
    && g.Index(f.maxRegs) < |f.stencils| && EntryIs(f.relocationData, f.stencils[g.Index(f.maxRegs)], g)
  }

  predicate Addable(f: Function, maxRegs: nat, holes: nat) {
    NoneInvalid(f.relocations) && Encodable(f.inputs + f.outputs, maxRegs) && (f.wide ==> holes > 0)
  }

  predicate IndicesDistinct(functions: seq<Function>, maxRegs: nat) {
    forall j, k :: 0 <= j < k < |functions| ==> functions[j].Index(maxRegs) != functions[k].Index(maxRegs)
  }

  /** The pool after these functions: each list of relocations once, with a sentinel behind it. */
  function PoolOf(functions: seq<Function>): seq<Relocation> {
    if functions == [] then []
    else
      var (init, last) := (functions[..|functions| - 1], functions[|functions| - 1]);
      if Shared(init, last) then PoolOf(init) else PoolOf(init) + last.relocations + [SENTINEL]
  }

  /** An earlier function has the same relocations. */
  predicate Shared(functions: seq<Function>, f: Function) {
    exists j :: 0 <= j < |functions| && functions[j].relocations == f.relocations
  }

  /** Function `k` goes into the family, after those before it. */
  predicate Accepted(functions: seq<Function>, k: nat, ins: nat, outs: nat, holes: nat, jumps: nat)
    requires k < |functions|
  {
    && Matching(functions[k], ins, outs, holes, jumps)
    && Storable(functions[k], if Shared(functions[..k], functions[k]) then 0 else |PoolOf(functions[..k])|)
  }

  predicate AllAccepted(functions: seq<Function>, n: nat, ins: nat, outs: nat, holes: nat, jumps: nat)
    requires n <= |functions|
  {
    forall k :: 0 <= k < n ==> Accepted(functions, k, ins, outs, holes, jumps)
  }

  /** The error is that of the first function that is refused. */
  ghost predicate FirstRefused(functions: seq<Function>, k: nat, ins: nat, outs: nat, holes: nat, jumps: nat,
                               error: BuildError)
    requires k < |functions|
  {
    && !Accepted(functions, k, ins, outs, holes, jumps)
    && AllAccepted(functions, k, ins, outs, holes, jumps)
    && error == (if Matching(functions[k], ins, outs, holes, jumps) then TooLarge else FamilyMismatch)
  }

  /** What the builder knows of its pool after the first `k` functions. */
  ghost predicate Pooled(functions: seq<Function>, k: nat, data: seq<Relocation>,
                         existing: map<seq<Relocation>, nat>)
    requires k <= |functions|
  {
    && data == PoolOf(functions[..k])
    && (forall j :: 0 <= j < k ==> functions[j].relocations in existing)
    && (forall list :: list in existing ==> existing[list] < U16_LIMIT)
    && (forall list :: list in existing ==> exists j :: 0 <= j < k && functions[j].relocations == list)
  }

  /** The builder has the first `k` functions, at their indices, and nothing else. */
  ghost predicate Filled(functions: seq<Function>, k: nat, maxRegs: nat, entries: map<nat, Function>)
    requires k <= |functions|
  {
    && (forall j :: 0 <= j < k ==>
          functions[j].Index(maxRegs) in entries && entries[functions[j].Index(maxRegs)] == functions[j])
    && (forall i :: i in entries ==> exists j :: 0 <= j < k && functions[j].Index(maxRegs) == i)
  }

  lemma FilledMore(functions: seq<Function>, k: nat, maxRegs: nat, entries: map<nat, Function>)
    requires k < |functions| && IndicesDistinct(functions, maxRegs) && Filled(functions, k, maxRegs, entries)
    ensures Filled(functions, k + 1, maxRegs, entries[functions[k].Index(maxRegs) := functions[k]])
  {
    hide Function.Index;
    var more := entries[functions[k].Index(maxRegs) := functions[k]];
    forall i | i in more ensures exists j :: 0 <= j < k + 1 && functions[j].Index(maxRegs) == i {
      if i != functions[k].Index(maxRegs) {
        var j :| 0 <= j < k && functions[j].Index(maxRegs) == i;
      }
    }
  }

  lemma NothingAdded(functions: seq<Function>, maxRegs: nat, ins: nat, outs: nat, holes: nat, jumps: nat)
    ensures Pooled(functions, 0, [], map[]) && Filled(functions, 0, maxRegs, map[])
    ensures AllAccepted(functions, 0, ins, outs, holes, jumps)
  {
  }

  /** A table with these entries is that of the functions. */
  lemma TableBuilt(f: Family, functions: seq<Function>, entries: map<nat, Function>)
    requires f.maxRegs > 0 && |f.stencils| == TableLen(f.ins, f.outs, f.maxRegs, f.holes)
    requires Filled(functions, |functions|, f.maxRegs, entries)
    requires forall i :: i in entries ==> i < |f.stencils| && EntryIs(f.relocationData, f.stencils[i], entries[i])
    requires forall i :: i in entries ==> InTable(entries[i], f.ins, f.outs, f.maxRegs, f.holes)
    requires forall i :: i in entries ==> CountOf(entries[i].relocations, Hole) <= f.holes
    requires forall i :: 0 <= i < |f.stencils| && i !in entries ==> f.stencils[i] == NO_STENCIL
    ensures BuiltFrom(f, functions)
  {
    hide EntryIs, CountOf, TableLen, InTable, Function.Index;
    forall k | 0 <= k < |functions| ensures Holding(f, functions[k]) {
      assert functions[k].Index(f.maxRegs) in entries;
    }
  }

  lemma AcceptedMore(functions: seq<Function>, k: nat, ins: nat, outs: nat, holes: nat, jumps: nat)
    requires k < |functions| && AllAccepted(functions, k, ins, outs, holes, jumps)
    requires Accepted(functions, k, ins, outs, holes, jumps)
    ensures AllAccepted(functions, k + 1, ins, outs, holes, jumps)
  {
    hide Accepted;
  }

  lemma Refused(functions: seq<Function>, k: nat, ins: nat, outs: nat, holes: nat, jumps: nat, error: BuildError)
    requires k < |functions| && AllAccepted(functions, k, ins, outs, holes, jumps)
    requires !Accepted(functions, k, ins, outs, holes, jumps)
    requires error == if Matching(functions[k], ins, outs, holes, jumps) then TooLarge else FamilyMismatch
    ensures FirstRefused(functions, k, ins, outs, holes, jumps, error)
    ensures !AllAccepted(functions, |functions|, ins, outs, holes, jumps)
  {
    hide Accepted, Matching;
  }

  lemma PooledShared(functions: seq<Function>, k: nat, data: seq<Relocation>, existing: map<seq<Relocation>, nat>)
    requires k < |functions| && Pooled(functions, k, data, existing)
    ensures functions[k].relocations in existing <==> Shared(functions[..k], functions[k])
  {
    hide PoolOf;
    if functions[k].relocations in existing {
      var j :| 0 <= j < k && functions[j].relocations == functions[k].relocations;
      assert functions[..k][j] == functions[j];
    }
  }

  /** Whether the next function is accepted depends on its place in the pool. */
  lemma NextAccepted(functions: seq<Function>, k: nat, ins: nat, outs: nat, holes: nat, jumps: nat,
                     data: seq<Relocation>, existing: map<seq<Relocation>, nat>)
    requires k < |functions| && Pooled(functions, k, data, existing)
    ensures var start := StartFor(data, existing, functions[k].relocations);
      Accepted(functions, k, ins, outs, holes, jumps)
      <==> Matching(functions[k], ins, outs, holes, jumps) && Storable(functions[k], start)
    ensures Storable(functions[k], StartFor(data, existing, functions[k].relocations)) ==>
      var list := functions[k].relocations;
      Pooled(functions, k + 1, PoolWith(data, existing, list), existing[list := StartFor(data, existing, list)])
  {
    hide Matching;
    PooledShared(functions, k, data, existing);
    if Storable(functions[k], StartFor(data, existing, functions[k].relocations)) {
      PooledMore(functions, k, data, existing);
    }
  }

  lemma PooledMore(functions: seq<Function>, k: nat, data: seq<Relocation>, existing: map<seq<Relocation>, nat>)
    requires k < |functions| && Pooled(functions, k, data, existing)
    requires StartFor(data, existing, functions[k].relocations) < U16_LIMIT
    ensures var list := functions[k].relocations;
      Pooled(functions, k + 1, PoolWith(data, existing, list), existing[list := StartFor(data, existing, list)])
  {
    PooledShared(functions, k, data, existing);
    hide Shared;
    assert functions[..k + 1][..k] == functions[..k] && functions[..k + 1][k] == functions[k];
    var list := functions[k].relocations;
    var more := existing[list := StartFor(data, existing, list)];
    forall l | l in more ensures exists j :: 0 <= j < k + 1 && functions[j].relocations == l {
      if l != list {
        var j :| 0 <= j < k && functions[j].relocations == l;
      }
    }
  }

  /** Adds all functions of a family, one after the other. */
  method BuildFamily(ins: nat, outs: nat, maxRegs: nat, holes: nat, jumps: nat, functions: seq<Function>)
    returns (r: Result<Family, BuildError>)
    requires maxRegs > 0 && IndicesDistinct(functions, maxRegs)
    requires forall k :: 0 <= k < |functions| ==> Addable(functions[k], maxRegs, holes)
    ensures r.Ok? ==> BuiltFrom(r.value, functions) && (functions != [] ==> FamilyOk(r.value))
    ensures r.Ok? ==>
        r.value.ins == ins && r.value.outs == outs && r.value.maxRegs == maxRegs
        && r.value.holes == holes && r.value.jumps == jumps
    ensures r.Ok? <==> AllAccepted(functions, |functions|, ins, outs, holes, jumps)
    ensures r.Err? ==> exists k :: 0 <= k < |functions| && FirstRefused(functions, k, ins, outs, holes, jumps, r.error)
  {
    hide EntryIs, CountOf, TableLen, Encodable, InTable, Function.Index, PoolStarts, FamilyOk, BuiltFrom, Pooled,
         Filled, Accepted, AllAccepted, FirstRefused, Matching, Storable, PoolWith, StartFor;
    NothingAdded(functions, maxRegs, ins, outs, holes, jumps);
    var builder := new StencilFamilyBuilder(ins, outs, maxRegs, holes, jumps);
    var k := 0;
    while k < |functions|
      invariant 0 <= k <= |functions| && fresh(builder) && builder.Valid()
      invariant builder.ins == ins && builder.outs == outs && builder.maxRegs == maxRegs && builder.holes == holes
      invariant builder.jumps == jumps
      invariant Filled(functions, k, maxRegs, builder.entries)
      invariant k > 0 ==> builder.relocationData != []
      invariant Pooled(functions, k, builder.relocationData, builder.existing)
      invariant AllAccepted(functions, k, ins, outs, holes, jumps)
    {
      assert Addable(functions[k], maxRegs, holes);
      NextAccepted(functions, k, ins, outs, holes, jumps, builder.relocationData, builder.existing);
      FilledMore(functions, k, maxRegs, builder.entries);
      var added := builder.AddStencil(functions[k]);
      if added.Err? {
        Refused(functions, k, ins, outs, holes, jumps, added.error);
        return Err(added.error);
      }
      AcceptedMore(functions, k, ins, outs, holes, jumps);
      k := k + 1;
    }
    var f := Family(ins, outs, maxRegs, holes, jumps, builder.relocationData, builder.stencils);
    TableBuilt(f, functions, builder.entries);
    if functions != [] {
      BuiltIsComplete(f, functions);
    }
    return Ok(f);
  }

  /** The function is for assignment `t`, in this width. */
  predicate IsFor(f: Function, t: seq<nat>, wide: bool) {
    Bits(f.inputs + f.outputs) == t && f.wide == wide
  }

  /** The functions that the macro generates: for every assignment one narrow function, and a wide one if
      there are holes; all have code. */
  ghost predicate Generated(functions: seq<Function>, ins: nat, outs: nat, maxRegs: nat, holes: nat) {
    && (forall k :: 0 <= k < |functions| ==> IsGenerated(functions[k], ins, outs, maxRegs, holes))
    && (forall j, k :: 0 <= j < k < |functions| ==>
          !IsFor(functions[k], Bits(functions[j].inputs + functions[j].outputs), functions[j].wide))
    && (forall t, wide :: Wanted(t, wide, ins, outs, maxRegs, holes) ==>
          exists k :: 0 <= k < |functions| && IsFor(functions[k], t, wide))
  }

  predicate Wanted(t: seq<nat>, wide: bool, ins: nat, outs: nat, maxRegs: nat, holes: nat) {
    Assignment(t, ins, outs, maxRegs) && (wide ==> holes > 0)
  }

  predicate IsGenerated(f: Function, ins: nat, outs: nat, maxRegs: nat, holes: nat) {
    && |f.inputs| == ins && |f.outputs| == outs && Assignment(Bits(f.inputs + f.outputs), ins, outs, maxRegs)
    && (f.wide ==> holes > 0) && f.codeLen > 0 && NoneInvalid(f.relocations)
  }

  /** The index depends on the digits only. */
  lemma {:induction false} SameBits(a: seq<Location>, b: seq<Location>, maxRegs: nat)
    requires Bits(a) == Bits(b)
    ensures IoIndex(a, maxRegs) == IoIndex(b, maxRegs)
  {
    assert |a| == |Bits(a)| == |b|;
    if a != [] {
      var n := |a| - 1;
      assert Bits(a)[n] == Bits(b)[n];
      assert Bits(a[..n]) == Bits(a)[..n] && Bits(b[..n]) == Bits(b)[..n];
      SameBits(a[..n], b[..n], maxRegs);
    }
  }

  lemma BitsEncodable(a: seq<Location>, maxRegs: nat)
    ensures Encodable(a, maxRegs) <==> forall i :: 0 <= i < |a| ==> Bits(a)[i] < maxRegs
  {
    forall i | 0 <= i < |a| ensures Bits(a)[i] == IntoBits(a[i]) {
    }
  }

  /** The digits of locations that have the same index. */
  lemma BitsOfIndex(a: seq<Location>, b: seq<Location>, v: bool, c: seq<Location>, d: seq<Location>, w: bool,
                    maxRegs: nat)
    requires maxRegs > 0 && |a| == |c| && |b| == |d| && Encodable(a + b, maxRegs) && Encodable(c + d, maxRegs)
    ensures TableIndex(a, b, maxRegs, v) == TableIndex(c, d, maxRegs, w) <==> v == w && Bits(a + b) == Bits(c + d)
  {
    hide IoIndex, Encodable, Power;
    if TableIndex(a, b, maxRegs, v) == TableIndex(c, d, maxRegs, w) {
      IndexInjective(a, b, v, c, d, w, maxRegs);
      LossyBits(a, c);
      LossyBits(b, d);
      assert Bits(a + b) == Bits(a) + Bits(b) && Bits(c + d) == Bits(c) + Bits(d);
    }
    if v == w && Bits(a + b) == Bits(c + d) {
      SameBits(a + b, c + d, maxRegs);
    }
  }

  lemma LossyBits(a: seq<Location>, b: seq<Location>)
    requires LossyAll(a) == LossyAll(b)
    ensures Bits(a) == Bits(b)
  {
    assert |a| == |LossyAll(a)| == |b|;
    forall i | 0 <= i < |a| ensures IntoBits(a[i]) == IntoBits(b[i]) {
      assert LossyAll(a)[i] == LossyAll(b)[i];
    }
  }

  /** No table entry is written twice. */
  lemma GeneratedDistinct(functions: seq<Function>, ins: nat, outs: nat, maxRegs: nat, holes: nat)
    requires maxRegs > 0 && Generated(functions, ins, outs, maxRegs, holes)
    ensures IndicesDistinct(functions, maxRegs)
    ensures forall k :: 0 <= k < |functions| ==> Addable(functions[k], maxRegs, holes)
  {
    hide TableIndex, Encodable, Bits;
    forall k | 0 <= k < |functions| ensures Addable(functions[k], maxRegs, holes) {
      assert IsGenerated(functions[k], ins, outs, maxRegs, holes);
      BitsEncodable(functions[k].inputs + functions[k].outputs, maxRegs);
    }
    forall j, k | 0 <= j < k < |functions| ensures functions[j].Index(maxRegs) != functions[k].Index(maxRegs) {
      var (f, g) := (functions[j], functions[k]);
      assert IsGenerated(f, ins, outs, maxRegs, holes) && IsGenerated(g, ins, outs, maxRegs, holes);
      assert Addable(f, maxRegs, holes) && Addable(g, maxRegs, holes);
      BitsOfIndex(f.inputs, f.outputs, f.wide, g.inputs, g.outputs, g.wide, maxRegs);
    }
  }

  /** The operands of a call, as the runtime passes them. */
  predicate Operands(f: Family, inputs: seq<Location>, outputs: seq<Location>, holes: seq<Word>) {
    |inputs| == f.ins && |outputs| == f.outs && |holes| == f.holes && Encodable(inputs + outputs, f.maxRegs)
  }

  /** The selected stencil is that of function `g`. */
  ghost predicate Selects(f: Family, selected: Option<Selected>, g: Function) {
    && selected.Some? && selected.value.wide == g.wide
    && EntryIs(f.relocationData, selected.value.stencil, g)
  }

  /** Function `g` is for these operands, in the width that the values of the holes need. */
  ghost predicate RightFunction(functions: seq<Function>, g: Function, inputs: seq<Location>, outputs: seq<Location>,
                                holes: seq<Word>) {
    && g in functions && Bits(g.inputs + g.outputs) == Bits(inputs + outputs)
    && exists n ::
         n in functions && IsFor(n, Bits(inputs + outputs), false)
         && g.wide == !HolesFit(n.relocations, holes)
  }

  lemma NarrowIndex(f: Family, inputs: seq<Location>, outputs: seq<Location>, holes: seq<Word>)
    requires f.maxRegs > 0 && |f.stencils| == TableLen(f.ins, f.outs, f.maxRegs, f.holes)
    requires Operands(f, inputs, outputs, holes)
    ensures var (index, len) := (TableIndex(inputs, outputs, f.maxRegs, false), StencilsLen(f.ins, f.outs, f.maxRegs));
      && index < len <= |f.stencils| && (f.holes > 0 ==> index + len < |f.stencils|)
        && (f.holes == 0 ==> |f.stencils| == len)
      && TableIndex(inputs, outputs, f.maxRegs, true) == index + len
  {
    hide IoIndex, Power, Encodable;
    LossyRoundTrip(inputs, outputs, f.maxRegs, false);
  }

  /** The function for an assignment. */
  lemma FunctionFor(functions: seq<Function>, f: Family, t: seq<nat>, wide: bool) returns (g: Function)
    requires Generated(functions, f.ins, f.outs, f.maxRegs, f.holes)
    requires Wanted(t, wide, f.ins, f.outs, f.maxRegs, f.holes)
    ensures g in functions && IsFor(g, t, wide) && IsGenerated(g, f.ins, f.outs, f.maxRegs, f.holes)
  {
    var k :| 0 <= k < |functions| && IsFor(functions[k], t, wide);
    g := functions[k];
  }

  /** The table entry for operands is that of the function for their assignment. */
  lemma EntryFor(functions: seq<Function>, f: Family, g: Function, inputs: seq<Location>, outputs: seq<Location>,
                 wide: bool)
    requires BuiltFrom(f, functions) && g in functions && |inputs| == f.ins && |outputs| == f.outs
    requires Encodable(inputs + outputs, f.maxRegs)
    requires IsFor(g, Bits(inputs + outputs), wide)
    ensures TableIndex(inputs, outputs, f.maxRegs, wide) < |f.stencils|
    ensures EntryIs(f.relocationData, f.stencils[TableIndex(inputs, outputs, f.maxRegs, wide)], g)
    ensures CountOf(g.relocations, Hole) <= f.holes
  {
    hide TableIndex, Encodable, EntryIs, CountOf, Bits;
    assert Holding(f, g);
    BitsOfIndex(inputs, outputs, wide, g.inputs, g.outputs, g.wide, f.maxRegs);
  }

  /** Nothing is in the table for operands two of whose outputs share a register. */
  lemma NoEntryFor(functions: seq<Function>, f: Family, inputs: seq<Location>, outputs: seq<Location>, wide: bool)
    requires BuiltFrom(f, functions) && Generated(functions, f.ins, f.outs, f.maxRegs, f.holes)
    requires |inputs| == f.ins && |outputs| == f.outs && Encodable(inputs + outputs, f.maxRegs)
    requires !OutputsDistinct(Bits(inputs + outputs), f.ins)
    requires TableIndex(inputs, outputs, f.maxRegs, wide) < |f.stencils|
    ensures f.stencils[TableIndex(inputs, outputs, f.maxRegs, wide)] == NO_STENCIL
  {
    hide TableIndex, Encodable, EntryIs, CountOf, Bits, OutputsDistinct;
    var index := TableIndex(inputs, outputs, f.maxRegs, wide);
    forall k | 0 <= k < |functions| ensures functions[k].Index(f.maxRegs) != index {
      var g := functions[k];
      assert IsGenerated(g, f.ins, f.outs, f.maxRegs, f.holes) && Holding(f, g);
      BitsOfIndex(g.inputs, g.outputs, g.wide, inputs, outputs, wide, f.maxRegs);
    }
  }

  lemma HolesExist(relocations: seq<Relocation>, holes: seq<Word>)
    requires CountOf(relocations, Hole) == 0
    ensures HolesFit(relocations, holes)
  {
    CountOfBounds(relocations, Hole);
  }

  /** The runtime selects the stencil that was generated for exactly the given locations, in the width that the
      values of the holes need, and none exactly if two outputs share a register. */
  lemma SelectionAgrees(f: Family, functions: seq<Function>, inputs: seq<Location>, outputs: seq<Location>,
                        holes: seq<Word>)
    requires BuiltFrom(f, functions) && Generated(functions, f.ins, f.outs, f.maxRegs, f.holes)
    requires Operands(f, inputs, outputs, holes)
    ensures TableIndex(inputs, outputs, f.maxRegs, false) < |f.stencils|
    ensures f.stencils[TableIndex(inputs, outputs, f.maxRegs, false)].relocationIndex <= |f.relocationData|
    ensures var selected := Selection(f, inputs, outputs, holes);
      if OutputsDistinct(Bits(inputs + outputs), f.ins)
      then exists g :: RightFunction(functions, g, inputs, outputs, holes) && Selects(f, selected, g)
      else selected == None
  {
    hide TableIndex, StencilsLen, Encodable, CountOf, Bits, OutputsDistinct, HolesFit, ListAt, BuiltFrom, Generated;
    BuiltLen(f, functions);
    NarrowIndex(f, inputs, outputs, holes);
    var t := Bits(inputs + outputs);
    if OutputsDistinct(t, f.ins) {
      BitsEncodable(inputs + outputs, f.maxRegs);
      BitsLen(inputs + outputs);
      var n := FunctionFor(functions, f, t, false);
      EntryFor(functions, f, n, inputs, outputs, false);
      if HolesFit(n.relocations, holes) {
        assert RightFunction(functions, n, inputs, outputs, holes);
      } else {
        if f.holes == 0 {
          HolesExist(n.relocations, holes);
        }
        var g := FunctionFor(functions, f, t, true);
        EntryFor(functions, f, g, inputs, outputs, true);
        assert RightFunction(functions, g, inputs, outputs, holes);
      }
    } else {
      NoEntryFor(functions, f, inputs, outputs, false);
      if f.holes > 0 {
        NoEntryFor(functions, f, inputs, outputs, true);
      }
    }
  }

  lemma BuiltLen(f: Family, functions: seq<Function>)
    requires BuiltFrom(f, functions)
    ensures f.maxRegs > 0 && |f.stencils| == TableLen(f.ins, f.outs, f.maxRegs, f.holes)
  {
  }

  lemma BitsLen(a: seq<Location>)
    ensures |Bits(a)| == |a|
  {
  }

  /** A family that has been built is complete: its table can be used for selection. */
  lemma BuiltIsComplete(f: Family, functions: seq<Function>)
    requires BuiltFrom(f, functions) && functions != []
    requires forall k :: 0 <= k < |functions| ==> NoneInvalid(functions[k].relocations)
    requires PoolStarts(f.relocationData, f.holes)
    ensures FamilyOk(f)
  {
    hide TableIndex, Encodable, CountOf, StencilsLen, ListAt;
    forall i | 0 <= i < |f.stencils| ensures EntryOk(f, f.stencils[i]) {
      if k :| 0 <= k < |functions| && functions[k].Index(f.maxRegs) == i {
        assert Holding(f, functions[k]);
        CountOfBounds(functions[k].relocations, Hole);
      } else {
        CountOfBounds(ListAt(f.relocationData, 0), Hole);
      }
    }
  }
}
