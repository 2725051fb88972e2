/** Building a block from stencils (`PatchBlock` in `src/patch.rs`). */
module Patch {
  import opened Wrappers
  import opened Errors
  import opened Words
  import opened Buffers
  import opened Locations
  import opened Relocations
  import opened Stencils
  import opened Emissions
  import opened PatchBlocks
  import opened PatchLogs
  import opened Layouts
  import opened LinkedBlocks
  import opened Finalizing

  /** The stencil `s`, copied to `start` of a block with `firstConstant` constants. */
  function Emitted(lib: Library, f: Family, s: Stencil, args: Args, start: nat, firstConstant: nat): Emission
    requires InLibrary(lib, f, s)
  {
    Emission(start, StencilCode(lib, s), ListAt(f.relocationData, s.relocationIndex), args, firstConstant)
  }

  /** The stencil is well-formed with these operands, wherever it is copied. */
  ghost predicate StencilOk(lib: Library, f: Family, s: Stencil, args: Args) {
    && InLibrary(lib, f, s)
    && forall start: nat, first: nat :: WellFormed(lib, Emitted(lib, f, s, args, start, first))
  }

  /** What a call of `emit_one` promises: a complete table, operands of the right number, and a well-formed stencil. */
  ghost predicate CallOk(lib: Library, f: Family, inputs: seq<Location>, outputs: seq<Location>, holes: seq<Word>,
                         jumps: seq<JumpTarget>) {
    && FamilyOk(f) && f.maxRegs == lib.maxRegs
    && |inputs| == f.ins && |outputs| == f.outs && |holes| == f.holes && |jumps| == f.jumps
    && match Choice(f, inputs, outputs, holes)
       case Err(_) => true
       case Ok(s) => StencilOk(lib, f, s.stencil, Args(inputs, outputs, holes, jumps, s.wide))
  }

  /** The error of an emission, or the stencil that is selected. */
  ghost function Choice(f: Family, inputs: seq<Location>, outputs: seq<Location>, holes: seq<Word>)
    : Result<Selected, PatchError>
    requires FamilyOk(f) && |inputs| == f.ins && |outputs| == f.outs && |holes| == f.holes
  {
    if !Encodable(inputs + outputs, f.maxRegs) then Err(InvalidRegister)
    else
      IoIndexBelow(inputs + outputs, f.maxRegs);
      assert EntryOk(f, f.stencils[TableIndex(inputs, outputs, f.maxRegs, false)]);
      match Selection(f, inputs, outputs, holes)
      case None => Err(StencilNotFound)
      case Some(s) => Ok(s)
  }

  /** The emission that a successful call adds to the log. */
  ghost function NewEmission(lib: Library, f: Family, inputs: seq<Location>, outputs: seq<Location>, holes: seq<Word>,
                             jumps: seq<JumpTarget>, start: nat, firstConstant: nat): Emission
    requires CallOk(lib, f, inputs, outputs, holes, jumps) && Choice(f, inputs, outputs, holes).Ok?
  {
    var s := Choice(f, inputs, outputs, holes).value;
    Emitted(lib, f, s.stencil, Args(inputs, outputs, holes, jumps, s.wide), start, firstConstant)
  }

  /** The call is allowed, and its constants fit in the block. */
  ghost predicate Fits(lib: Library, f: Family, inputs: seq<Location>, outputs: seq<Location>, holes: seq<Word>,
                       jumps: seq<JumpTarget>, constants: nat) {
    && CallOk(lib, f, inputs, outputs, holes, jumps)
    && (Choice(f, inputs, outputs, holes).Ok? ==>
          ConstantsFit(NewEmission(lib, f, inputs, outputs, holes, jumps, 0, constants)))
  }

  /** The constants of the stencil still fit in the block. */
  ghost predicate ConstantsFit(e: Emission) {
    HoleIdsOk(e, |e.relocs|) ==> e.firstConstant + |Constants(e, |e.relocs|)| <= CONSTANT_LIMIT
  }

  /** The fields of a block, and its log. */
  datatype BlockState = BlockState(code: seq<Byte>, relocations: seq<Delayed>, constants: seq<Word>,
      next: seq<Delayed>, log: seq<Emission>)

  /** What `emit_one` promises: an error and no change, or one more stencil, behind all that comes before. */
  ghost predicate Emits(lib: Library, f: Family, inputs: seq<Location>, outputs: seq<Location>, holes: seq<Word>,
                        jumps: seq<JumpTarget>,
                        before: BlockState, after: BlockState, r: Result<(), PatchError>)
    requires CallOk(lib, f, inputs, outputs, holes, jumps)
  {
    match Choice(f, inputs, outputs, holes)
    case Err(error) => r == Err(error) && after == before
    case Ok(_) =>
      && r == Ok(())
      && SettleOk(before.code, before.next, MaxDeferred(before.relocations), lib.empty)
      && var start := |Settled(before.code, before.next, MaxDeferred(before.relocations), lib.empty)|;
         after.log == before.log + [NewEmission(lib, f, inputs, outputs, holes, jumps, start, |before.constants|)]
  }

  // ----- the end of a block -----

  /** The fields of the long jump are in order and lie inside its code. */
  ghost predicate LongJumpOk(lib: Library) {
    && LongJumpTable(lib)
    && match LongJump(lib)
       case None => true
       case Some(s) =>
         && InLibrary(lib, lib.longJump, s)
         && var list := ListAt(lib.longJump.relocationData, s.relocationIndex);
            && (forall i :: 0 <= i < |list| ==> list[i].FieldOk() && list[i].End() <= s.codeLen)
            && (forall i, j :: 0 <= i < j < |list| ==> list[i].End() <= list[j].offset)
  }

  /** The addresses of runtime symbols. */
  function SymbolAddresses(lib: Library, symbols: seq<nat>): (r: seq<Word>)
    requires forall t :: 0 <= t < |symbols| ==> symbols[t] < |lib.rtSymbols|
    ensures |r| == |symbols| && forall t :: 0 <= t < |r| ==> r[t] == lib.rtSymbols[symbols[t]]
  {
    seq(|symbols|, t requires 0 <= t < |symbols| => lib.rtSymbols[symbols[t]])
  }

  predicate SymbolsExist(lib: Library, ds: seq<Delayed>) {
    forall t :: 0 <= t < |Symbols(ds)| ==> Symbols(ds)[t] < |lib.rtSymbols|
  }

  ghost function BlockPlan(lib: Library, size: nat, ds: seq<Delayed>, constants: seq<Word>): Plan
    requires LongJumpOk(lib) && SymbolsExist(lib, ds)
  {
    var symbols := Symbols(ds);
    match LongJump(lib)
    case None => Plan(size, [], [], symbols, constants, SymbolAddresses(lib, symbols))
    case Some(s) =>
      Plan(size, StencilCode(lib, s), ListAt(lib.longJump.relocationData, s.relocationIndex), symbols, constants,
        SymbolAddresses(lib, symbols))
  }

  lemma BlockPlanOk(lib: Library, size: nat, ds: seq<Delayed>, constants: seq<Word>)
    requires LongJumpOk(lib) && SymbolsExist(lib, ds)
    ensures BlockPlan(lib, size, ds, constants).Ok()
  {
    hide LongJumpTable, LongJump, ListAt, Symbols, SymbolAddresses;
  }

  /** Targets of deferred relocations exist, except possibly blocks. */
  lemma TargetsKnown(lib: Library, log: seq<Emission>)
    requires AllWellFormed(lib, log)
    ensures forall m ::
      0 <= m < |AllDeferred(lib, log)| ==>
          TargetKnown(AllDeferred(lib, log)[m].target, |lib.rtSymbols|)
    ensures SymbolsExist(lib, AllDeferred(lib, log))
  {
    hide AllDeferred, RelocationsOk, TailOk, Symbols;
    var ds := AllDeferred(lib, log);
    forall m | 0 <= m < |ds| ensures TargetKnown(ds[m].target, |lib.rtSymbols|) {
      var k, i := AllDeferredFrom(lib, log, m);
      OkIds(lib, log[k]);
      FateKnown(lib, log[k], i);
    }
    SymbolsSpec(ds);
    forall t | 0 <= t < |Symbols(ds)| ensures Symbols(ds)[t] < |lib.rtSymbols| {
      assert Symbols(ds)[t] in Symbols(ds);
    }
  }

  lemma FateKnown(lib: Library, e: Emission, i: nat)
    requires i < |e.relocs| && IdsOk(lib, e) && FateOf(lib, e, i).Later? && !FateOf(lib, e, i).target.AfterStencil?
    ensures TargetKnown(FateOf(lib, e, i).target, |lib.rtSymbols|)
  {
    assert IdOk(lib, e, i);
  }

  predicate JumpsToNext(lib: Library, e: Emission)
    requires IdsOk(lib, e)
  {
    exists i :: 0 <= i < |e.relocs| && IsNext(lib, e, i)
  }

  /** Jumps wait for the end of the block exactly when its last stencil jumps to the next one. */
  lemma PendingMeans(lib: Library, log: seq<Emission>)
    requires AllWellFormed(lib, log)
    ensures Pending(lib, log) != [] <==> log != [] && JumpsToNext(lib, log[|log| - 1])
  {
    hide FateOf, RelocationsOk, TailOk, Deferred;
    if log != [] {
      var last := log[|log| - 1];
      OkIds(lib, last);
      var pending := Deferred(lib, last, |last.relocs|, true);
      if pending != [] {
        var i := DeferredFrom(lib, last, |last.relocs|, true, 0);
        assert IsNext(lib, last, i);
      }
      if i :| 0 <= i < |last.relocs| && IsNext(lib, last, i) {
        LastIsLast(lib, last, true, i);
      }
    }
  }

  /** Every jump of the block to another block goes to one that exists. */
  ghost predicate JumpTargetsExist(lib: Library, log: seq<Emission>, site: Site)
    requires AllWellFormed(lib, log)
  {
    forall k: nat, i: nat, b: nat ::
      k < |log| && i < |log[k].relocs| && JumpsTo(lib, log[k], i, b) ==> b < |site.offsets|
  }

  predicate JumpsTo(lib: Library, e: Emission, i: nat, b: nat)
    requires i < |e.relocs| && IdsOk(lib, e)
  {
    FateOf(lib, e, i) == Later(Block(b))
  }

  /** Deferred relocations can be resolved exactly when all jumps go to blocks that exist. */
  lemma ResolvableMeans(lib: Library, log: seq<Emission>, site: Site)
    requires AllWellFormed(lib, log)
    ensures AllResolvable(site, AllDeferred(lib, log)) <==> JumpTargetsExist(lib, log, site)
  {
    hide AllDeferred, FateOf, TailOk;
    var ds := AllDeferred(lib, log);
    if JumpTargetsExist(lib, log, site) {
      forall m: nat | m < |ds| ensures Resolvable(site, ds[m].target) {
        var k, i := AllDeferredFrom(lib, log, m);
        OkIds(lib, log[k]);
        assert ds[m].target.Block? ==> JumpsTo(lib, log[k], i, ds[m].target.block);
      }
    }
    if AllResolvable(site, ds) {
      forall k: nat, i: nat, b: nat | k < |log| && i < |log[k].relocs| && JumpsTo(lib, log[k], i, b)
        ensures b < |site.offsets| {
        var m := AllDeferredHas(lib, log, k, i);
        assert Resolvable(site, ds[m].target);
      }
    }
  }

  /** A block whose last stencil is given no jump to a next one, and whose stencils are given jumps to existing blocks
      only, has nothing pending and nothing unresolvable. */
  lemma JumpsLink(lib: Library, log: seq<Emission>, site: Site)
    requires AllWellFormed(lib, log)
    requires log != [] ==> NextStencil !in log[|log| - 1].args.jumps
    requires forall k: nat, b: nat :: k < |log| && JumpTarget.Target(b) in log[k].args.jumps ==> b < |site.offsets|
    ensures Pending(lib, log) == [] && AllResolvable(site, AllDeferred(lib, log))
  {
    hide AllDeferred, TailOk, Pending, FateOf;
    PendingMeans(lib, log);
    ResolvableMeans(lib, log, site);
    if log != [] {
      var last := log[|log| - 1];
      OkIds(lib, last);
      forall i | 0 <= i < |last.relocs| ensures !IsNext(lib, last, i) {
        FateOfJump(lib, last, i);
      }
    }
    forall k: nat, i: nat, b: nat | k < |log| && i < |log[k].relocs| && JumpsTo(lib, log[k], i, b)
      ensures b < |site.offsets| {
      OkIds(lib, log[k]);
      FateOfJump(lib, log[k], i);
    }
  }

  /** A relocation waits for a stencil or a block only as a jump that the stencil was given. */
  lemma FateOfJump(lib: Library, e: Emission, i: nat)
    requires i < |e.relocs| && IdsOk(lib, e)
    ensures IsNext(lib, e, i) ==> NextStencil in e.args.jumps
    ensures forall b: nat :: FateOf(lib, e, i) == Later(Block(b)) ==> JumpTarget.Target(b) in e.args.jumps
  {
    assert IdOk(lib, e, i);
  }

  lemma KnownOf(lib: Library, log: seq<Emission>, code: seq<Byte>)
    requires LogOk(lib, log, code)
    ensures AllWellFormed(lib, log) && SymbolsExist(lib, AllDeferred(lib, log))
    ensures forall m ::
      0 <= m < |AllDeferred(lib, log)| ==>
          TargetKnown(AllDeferred(lib, log)[m].target, |lib.rtSymbols|)
  {
    hide AllDeferred, WellFormed, SymbolsExist;
    TargetsKnown(lib, log);
  }

  /** What the layout of a block in order is made of. */
  lemma LayoutFacts(lib: Library, log: seq<Emission>, code: seq<Byte>, relocations: seq<Delayed>, constants: seq<Word>,
                    p: Plan)
    requires LogOk(lib, log, code) && relocations == AllDeferred(lib, log) && constants == AllConstants(lib, log)
    requires Pending(lib, log) == [] && LongJumpOk(lib) && SymbolsExist(lib, relocations)
    requires p == BlockPlan(lib, |code|, relocations, constants)
    ensures ClosedLog(lib, log, code) && PlanShape(lib, log, code, p) && Distinct(p.symbols)
    ensures p.symbols == [] || LongJump(lib).Some? ==> PlanOf(lib, log, code, p)
    ensures forall t :: 0 <= t < |p.symbols| ==> p.symbols[t] < |lib.rtSymbols|
    ensures p.Ok() && p.codeLen == |code| && p.symbols == Symbols(relocations) && p.constants == constants
    ensures p.addresses == SymbolAddresses(lib, p.symbols) && |p.addresses| == |p.symbols|
    ensures LongJump(lib).Some? ==>
      var s := LongJump(lib).value;
      InLibrary(lib, lib.longJump, s) && p.trampoline == StencilCode(lib, s)
        && p.trampolineRelocs == ListAt(lib.longJump.relocationData, s.relocationIndex)
  {
    hide LogOk, LongJumpTable, LongJump, ListAt, AllDeferred, AllConstants, Pending, ClosedLog, Symbols;
    LogCloses(lib, log, code);
    SymbolsSpec(relocations);
    BlockPlanOk(lib, |code|, relocations, constants);
  }

  /** The fields fixed at the end are proper ones, and whether they can be resolved depends on the blocks only. */
  lemma FixFields(lib: Library, log: seq<Emission>, code: seq<Byte>, p: Plan, site: Site)
    requires ClosedLog(lib, log, code) && PlanShape(lib, log, code, p)
    ensures var ds := AllDeferred(lib, log) + TrampolineDelayed(p, |p.symbols|);
      && (forall m :: 0 <= m < |ds| ==>
            ds[m].relocation.FieldOk() && ds[m].End() <= p.Len()
            && TargetKnown(ds[m].target, |lib.rtSymbols|))
      && (AllResolvable(site, ds) <==> AllResolvable(site, AllDeferred(lib, log)))
  {
    hide AllWellFormed, AllDone, AllDeferred, Plan.TrampolineAt, Plan.Len, Plan.Ok, AllConstants, Plan.Values,
         TrampolineDelayed, Symbols;
    var (own, tramp) := (AllDeferred(lib, log), TrampolineDelayed(p, |p.symbols|));
    PlanBounds(p);
    TrampolineSorted(p, |p.symbols|);
    OwnSorted(lib, log, code);
    TargetsKnown(lib, log);
    forall m | 0 <= m < |tramp| ensures Resolvable(site, tramp[m].target)
        && TargetKnown(tramp[m].target, |lib.rtSymbols|) {
      var t, i := TrampolineFrom(p, |p.symbols|, m);
    }
    ResolvableParts(site, own, tramp);
  }

  lemma ResolvableParts(site: Site, a: seq<Delayed>, b: seq<Delayed>)
    requires AllResolvable(site, b)
    ensures AllResolvable(site, a + b) <==> AllResolvable(site, a)
  {
    hide Resolvable;
    var all := a + b;
    assert forall m :: 0 <= m < |a| ==> all[m] == a[m];
  }

  // ----- helpers -----

  lemma WrittenBehind(before: seq<Byte>, p: seq<Byte>, at: nat, bytes: seq<Byte>)
    requires at + |bytes| <= |p|
    ensures Written(before + p, |before| + at, bytes) == before + Written(p, at, bytes)
  {
  }

  /** What is known of relocation `n` of a stencil. */
  lemma StepFacts(lib: Library, e: Emission, n: nat)
    requires RelocationsOk(lib, e) && n < |e.relocs|
    ensures var r := e.relocs[n];
      && !r.kind.Unknown? && r.FieldOk() && r.End() <= |e.bytes|
      && (r.kind.Hole? ==> r.id < |e.args.holes|)
      && (r.kind.Stack? ==> r.id < |StackVars(e.args.inputs + e.args.outputs)|)
      && (r.kind.Target? ==> r.id < |e.args.jumps|)
      && (r.kind.Runtime? ==> r.id < |lib.rtSymbols|)
      && IdsOk(lib, e) && (FateOf(lib, e, n).Now? ==> !r.relative)
    ensures HoleIdsOk(e, n + 1)
    ensures FateOf(lib, e, n) ==
      if IsWide(e, n) then Later(Constant(e.firstConstant + |Constants(e, n)|))
      else DirectFate(e.relocs[n], StackVars(e.args.inputs + e.args.outputs), e.args.holes, e.args.jumps, lib.rtSymbols)
  {
    assert IdOk(lib, e, n);
    forall i | 0 <= i < n + 1 ensures e.relocs[i].kind.Hole? ==> e.relocs[i].id < |e.args.holes| {
      assert IdOk(lib, e, i);
    }
  }

  /** A hole or stack slot that is patched at once is absolute. */
  lemma DirectFateNow(r: Relocation, stackVars: seq<nat>, holes: seq<Word>, jumps: seq<JumpTarget>,
                      rtSymbols: seq<Word>)
    requires (r.kind.Hole? && r.id < |holes|) || (r.kind.Stack? && r.id < |stackVars|)
    ensures DirectFate(r, stackVars, holes, jumps, rtSymbols).Now?
  {
  }

  lemma {:induction false} ConstantsGrow(e: Emission, m: nat, n: nat)
    requires m <= n <= |e.relocs| && HoleIdsOk(e, m) && HoleIdsOk(e, n)
    ensures |Constants(e, m)| <= |Constants(e, n)|
    decreases n
  {
    if m < n {
      ConstantsGrow(e, m, n - 1);
    }
  }

  /** `try_apply`: writes the field, less its place in the block if it is relative, or returns what it waits for. */
  method TryApply(dest: seq<Byte>, offset: nat, r: Relocation,
                  stackVars: seq<nat>, holes: seq<Word>, jumps: seq<JumpTarget>, rtSymbols: seq<Word>)
    returns (d: seq<Byte>, delayed: Option<Delayed>)
    requires !r.kind.Unknown? && r.FieldOk() && offset + r.End() <= |dest|
    requires r.kind.Hole? ==> r.id < |holes|
    requires r.kind.Stack? ==> r.id < |stackVars|
    requires r.kind.Target? ==> r.id < |jumps|
    requires r.kind.Runtime? ==> r.id < |rtSymbols|
    ensures match DirectFate(r, stackVars, holes, jumps, rtSymbols)
      case Now(v) =>
        delayed == None && d == ApplyRaw(r, dest, offset, Wrap(if r.relative then v - (offset + r.offset) else v))
      case Later(target) => delayed == Some(Delayed(offset, r, target)) && d == dest
  {
    var value: int;
    match r.kind {
      case Hole => value := holes[r.id];
      case Stack => value := stackVars[r.id];
      case Target =>
        return dest, Some(Delayed(offset, r,
          match jumps[r.id] case NextStencil => AfterStencil case Target(b) => Block(b)));
      case Runtime =>
        value := rtSymbols[r.id];
        if !r.SupportsValue(value) {
          return dest, Some(Delayed(offset, r, RuntimeSymbol(r.id)));
        }
    }
    if r.relative {
      value := value - (offset + r.offset);
    }
    return ApplyRaw(r, dest, offset, Wrap(value)), None;
  }

  /** A block while a stencil is copied to the end of `before` and its first `n` relocations are dealt with. */
  ghost predicate Copied(lib: Library, e: Emission, n: nat, before: BlockState, now: BlockState)
    requires RelocationsOk(lib, e) && n <= |e.relocs|
  {
    && HoleIdsOk(e, n) && IdsOk(lib, e)
    && now.code == before.code + Patched(lib, e, n)
    && now.relocations == before.relocations + Deferred(lib, e, n, false)
    && now.constants == before.constants + Constants(e, n)
    && now.next == Deferred(lib, e, n, true) && now.log == before.log
  }

  lemma ListsStep(lib: Library, e: Emission, n: nat)
    requires n < |e.relocs| && IdsOk(lib, e) && HoleIdsOk(e, n) && HoleIdsOk(e, n + 1)
    ensures Deferred(lib, e, n + 1, false) == Deferred(lib, e, n, false)
      + match FateOf(lib, e, n)
        case Now(_) => []
        case Later(t) => if t.AfterStencil? then [] else [Delayed(e.start, e.relocs[n], t)]
    ensures Deferred(lib, e, n + 1, true) == Deferred(lib, e, n, true)
      + match FateOf(lib, e, n)
        case Now(_) => []
        case Later(t) => if t.AfterStencil? then [Delayed(e.start, e.relocs[n], t)] else []
    ensures Constants(e, n + 1) == Constants(e, n) + if IsWide(e, n) then [e.args.holes[e.relocs[n].id]] else []
  {
    hide FateOf;
  }

  lemma Snoc<T>(all: seq<T>, before: seq<T>, own: seq<T>, x: T)
    requires all == before + own
    ensures all + [x] == before + (own + [x])
  {
  }

  lemma CopiedConstant(lib: Library, e: Emission, n: nat, before: BlockState, now: BlockState)
    requires RelocationsOk(lib, e) && n < |e.relocs| && e.firstConstant == |before.constants|
    requires Copied(lib, e, n, before, now)
    requires IsWide(e, n) && e.relocs[n].id < |e.args.holes|
    ensures Copied(lib, e, n + 1, before,
                   now.(relocations := now.relocations + [Delayed(e.start, e.relocs[n], Constant(|now.constants|))],
                        constants := now.constants + [e.args.holes[e.relocs[n].id]]))
  {
    hide FateOf, DirectFate, FieldBytes, IdsOk, Patched, IdOk, RelocationsOk, StackVars, Deferred, Constants, HoleIdsOk;
    StepFacts(lib, e, n);
    PatchedStep(lib, e, n);
    ListsStep(lib, e, n);
    var d := Delayed(e.start, e.relocs[n], Constant(|now.constants|));
    Snoc(now.relocations, before.relocations, Deferred(lib, e, n, false), d);
    Snoc(now.constants, before.constants, Constants(e, n), e.args.holes[e.relocs[n].id]);
  }

  lemma CopiedNow(lib: Library, e: Emission, n: nat, before: BlockState, now: BlockState)
    requires RelocationsOk(lib, e) && n < |e.relocs| && e.start == |before.code|
    requires Copied(lib, e, n, before, now)
    requires !IsWide(e, n) && IdsOk(lib, e) && FateOf(lib, e, n).Now?
    ensures e.start + e.relocs[n].End() <= |now.code| && e.relocs[n].FieldOk()
    ensures Copied(lib, e, n + 1, before,
                   now.(code := ApplyRaw(e.relocs[n], now.code, e.start, Wrap(FateOf(lib, e, n).value))))
  {
    hide FateOf, DirectFate, FieldBytes, IdsOk, Patched, IdOk, RelocationsOk, StackVars, Deferred, Constants,
         HoleIdsOk, Written, Wrap, IsWide;
    StepFacts(lib, e, n);
    PatchedStep(lib, e, n);
    ListsStep(lib, e, n);
    var bytes := FieldBytes(e.relocs[n], Wrap(FateOf(lib, e, n).value));
    WrittenBehind(before.code, Patched(lib, e, n), e.relocs[n].offset, bytes);
  }

  lemma CopiedLater(lib: Library, e: Emission, n: nat, before: BlockState, now: BlockState)
    requires RelocationsOk(lib, e) && n < |e.relocs|
    requires Copied(lib, e, n, before, now)
    requires !IsWide(e, n) && IdsOk(lib, e) && FateOf(lib, e, n).Later?
    ensures var d := Delayed(e.start, e.relocs[n], FateOf(lib, e, n).target);
      Copied(lib, e, n + 1, before,
             if d.target.AfterStencil? then now.(next := now.next + [d])
             else now.(relocations := now.relocations + [d]))
  {
    hide FateOf, DirectFate, FieldBytes, IdsOk, Patched, IdOk, RelocationsOk, StackVars, Deferred, Constants, HoleIdsOk;
    StepFacts(lib, e, n);
    PatchedStep(lib, e, n);
    ListsStep(lib, e, n);
  }

  lemma CopiedStart(lib: Library, e: Emission, before: BlockState)
    requires RelocationsOk(lib, e) && before.next == []
    ensures Copied(lib, e, 0, before, before.(code := before.code + e.bytes))
  {
  }

  lemma CopiedSize(lib: Library, e: Emission, n: nat, before: BlockState, now: BlockState)
    requires RelocationsOk(lib, e) && n <= |e.relocs| && Copied(lib, e, n, before, now)
    ensures |now.code| == |before.code| + |e.bytes|
  {
  }

  lemma CopiedConstants(lib: Library, e: Emission, n: nat, before: BlockState, now: BlockState)
    requires RelocationsOk(lib, e) && n < |e.relocs| && HoleIdsOk(e, |e.relocs|) && IsWide(e, n)
    requires Copied(lib, e, n, before, now)
    ensures |now.constants| < |before.constants| + |Constants(e, |e.relocs|)|
  {
    ConstantsGrow(e, n + 1, |e.relocs|);
  }

  lemma CopiedAll(lib: Library, e: Emission, before: BlockState, now: BlockState)
    requires RelocationsOk(lib, e) && Copied(lib, e, |e.relocs|, before, now)
    ensures IdsOk(lib, e) && HoleIdsOk(e, |e.relocs|) && now.code == before.code + Patched(lib, e, |e.relocs|)
    ensures now.relocations == before.relocations + Deferred(lib, e, |e.relocs|, false)
    ensures now.constants == before.constants + Constants(e, |e.relocs|)
        && now.next == Deferred(lib, e, |e.relocs|, true)
  {
  }

  lemma NoNextWrites(code: seq<Byte>)
    ensures NextWrites([], |code|) == [] && WriteAll(code, []) == code
  {
  }

  lemma NotEncodable(inputs: seq<Location>, outputs: seq<Location>, maxRegs: nat)
    ensures Encodable(inputs + outputs, maxRegs) <==>
      !(exists i :: 0 <= i < |inputs| && IntoBits(inputs[i]) >= maxRegs)
        && !(exists i :: 0 <= i < |outputs| && IntoBits(outputs[i]) >= maxRegs)
  {
    var all := inputs + outputs;
    forall i | 0 <= i < |inputs| ensures all[i] == inputs[i] {
    }
    forall i | 0 <= i < |outputs| ensures all[|inputs| + i] == outputs[i] {
    }
  }

  /** Pending jumps have proper fields. */
  lemma PendingFields(lib: Library, log: seq<Emission>, code: seq<Byte>)
    requires LogOk(lib, log, code)
    ensures forall k :: 0 <= k < |Pending(lib, log)| ==> Pending(lib, log)[k].relocation.FieldOk()
  {
    if log != [] {
      var last := log[|log| - 1];
      DeferredSorted(lib, last, |last.relocs|, true);
    }
  }

  lemma Appended(lib: Library, f: Family, s: Stencil, args: Args, start: nat, first: nat) returns (e: Emission)
    requires StencilOk(lib, f, s, args) && ConstantsFit(Emitted(lib, f, s, args, 0, first))
    ensures InLibrary(lib, f, s) && e == Emitted(lib, f, s, args, start, first)
    ensures e.start == start && e.firstConstant == first && |e.relocs| == |ListAt(f.relocationData, s.relocationIndex)|
    ensures WellFormed(lib, e) && HoleIdsOk(e, |e.relocs|) && first + |Constants(e, |e.relocs|)| <= CONSTANT_LIMIT
  {
    e := Emitted(lib, f, s, args, start, first);
    HoleIds(lib, e);
    StartUnused(e, 0, |e.relocs|);
    assert e.(start := 0) == Emitted(lib, f, s, args, 0, first);
  }

  lemma {:induction false} StartUnused(e: Emission, start: nat, n: nat)
    requires n <= |e.relocs| && HoleIdsOk(e, n)
    ensures HoleIdsOk(e.(start := start), n) && Constants(e.(start := start), n) == Constants(e, n)
  {
    if n > 0 {
      StartUnused(e, start, n - 1);
    }
  }

  lemma AppendLists(lib: Library, log: seq<Emission>, e: Emission)
    requires AllWellFormed(lib, log) && WellFormed(lib, e)
    ensures AllWellFormed(lib, log + [e]) && HoleIdsOk(e, |e.relocs|)
    ensures AllDeferred(lib, log + [e]) == AllDeferred(lib, log) + Deferred(lib, e, |e.relocs|, false)
    ensures AllConstants(lib, log + [e]) == AllConstants(lib, log) + Constants(e, |e.relocs|)
    ensures Pending(lib, log + [e]) == Deferred(lib, e, |e.relocs|, true)
  {
    HoleIds(lib, e);
    assert (log + [e])[..|log|] == log;
  }

  method StackSlots(locations: seq<Location>) returns (slots: seq<nat>)
    ensures slots == StackVars(locations)
  {
    slots := [];
    for k := 0 to |locations|
      invariant slots == StackVars(locations[..k])
    {
      assert locations[..k + 1][..k] == locations[..k];
      if locations[k].Stack? {
        slots := slots + [locations[k].slot];
      }
    }
    assert locations[..|locations|] == locations;
  }

  class PatchBlock {
    const library: Library
    var code: seq<Byte>
    var relocations: seq<Delayed>
    var constants: seq<Word>
    var nextRelocations: seq<Delayed>
    var ended: bool
    /** All stencils emitted so far. */
    ghost var log: seq<Emission>

    ghost predicate Valid()
      reads this
    {
      && LogOk(library, log, code)
      && relocations == AllDeferred(library, log)
      && constants == AllConstants(library, log)
      && nextRelocations == Pending(library, log)
      && |constants| <= CONSTANT_LIMIT
    }

    ghost function State(): BlockState
      reads this
    {
      BlockState(code, relocations, constants, nextRelocations, log)
    }

    constructor (library: Library)
      ensures Valid() && this.library == library && log == [] && !ended
    {
      this.library := library;
      code, relocations, constants, nextRelocations, ended := [], [], [], [], false;
      log := [];
    }

    /** Copies the stencil to the end of the code, and patches what is known. */
    method CopyAndPatch(f: Family, s: Stencil, args: Args, offset: nat)
      requires InLibrary(library, f, s) && offset == |code| && nextRelocations == []
      requires WellFormed(library, Emitted(library, f, s, args, offset, |constants|))
      requires HoleIdsOk(Emitted(library, f, s, args, offset, |constants|),
          |ListAt(f.relocationData, s.relocationIndex)|)
      requires var e := Emitted(library, f, s, args, offset, |constants|);
        |constants| + |Constants(e, |e.relocs|)| <= CONSTANT_LIMIT
      modifies `code, `relocations, `constants, `nextRelocations
      ensures var e := Emitted(library, f, s, args, offset, |old(constants)|);
        && code == old(code) + Patched(library, e, |e.relocs|)
        && relocations == old(relocations) + Deferred(library, e, |e.relocs|, false)
        && constants == old(constants) + Constants(e, |e.relocs|)
        && nextRelocations == Deferred(library, e, |e.relocs|, true)
    {
      hide FateOf, DirectFate, FieldBytes, TailOk, IdsOk, Patched, IdOk, RelocationsOk, StackVars, Copied, Constants,
           Deferred, HoleIdsOk, ApplyRaw;
      ghost var e := Emitted(library, f, s, args, offset, |constants|);
      ListAtBasics(f.relocationData, s.relocationIndex);
      code := code + StencilCode(library, s);
      var stackVars := StackSlots(args.inputs + args.outputs);
      CopiedStart(library, e, old(State()));
      var k := s.relocationIndex;
      while k < |f.relocationData|
        invariant s.relocationIndex <= k <= s.relocationIndex + |e.relocs|
        invariant Copied(library, e, k - s.relocationIndex, old(State()), State())
      {
        ghost var n := k - s.relocationIndex;
        var relocation := f.relocationData[k];
        if relocation.IsInvalid() {
          break;
        }
        assert relocation == e.relocs[n];
        StepFacts(library, e, n);
        if args.wide && relocation.kind.Hole? {
          CopiedConstant(library, e, n, old(State()), State());
          CopiedConstants(library, e, n, old(State()), State());
          relocations := relocations + [Delayed(offset, relocation, Constant(|constants| % CONSTANT_LIMIT))];
          constants := constants + [args.holes[relocation.id]];
        } else {
          if relocation.kind.Hole? || relocation.kind.Stack? {
            DirectFateNow(relocation, stackVars, args.holes, args.jumps, library.rtSymbols);
          }
          if FateOf(library, e, n).Now? {
            CopiedNow(library, e, n, old(State()), State());
          } else {
            CopiedLater(library, e, n, old(State()), State());
          }
          assert offset + relocation.End() <= |code| by {
            CopiedSize(library, e, n, old(State()), State());
          }
          var delayed;
          code, delayed := TryApply(code, offset, relocation, stackVars, args.holes, args.jumps, library.rtSymbols);
          match delayed {
            case None =>
            case Some(d) =>
              if d.target.AfterStencil? {
                nextRelocations := nextRelocations + [d];
              } else {
                relocations := relocations + [d];
              }
          }
        }
        k := k + 1;
      }
      CopiedAll(library, e, old(State()), State());
    }

    /** Patches the jumps to the next stencil, and removes a trailing jump that does nothing. */
    method Settle()
      requires SettleOk(code, nextRelocations, MaxDeferred(relocations), library.empty)
      requires forall k :: 0 <= k < |nextRelocations| ==> nextRelocations[k].relocation.FieldOk()
      modifies `code, `nextRelocations
      ensures code == Settled(old(code), old(nextRelocations), MaxDeferred(relocations), library.empty)
      ensures nextRelocations == []
    {
      hide FieldBytes, WriteAll, Written, Delayed.Resolve, NextWrites;
      ghost var pending := nextRelocations;
      if nextRelocations != [] {
        var last := nextRelocations[|nextRelocations| - 1];
        nextRelocations := nextRelocations[..|nextRelocations| - 1];
        code := last.Apply(code, last.Resolve(0, |code|));
        if EndsWith(code, library.empty)
            && last.Location() > (if relocations == [] then 0 else relocations[|relocations| - 1].Location()) {
          code := code[..|code| - |library.empty|];
        }
        assert code == Pruned(old(code), pending, MaxDeferred(relocations), library.empty);
      }
      NoNextWrites(code);
      DrainNext();
    }

    method DrainNext()
      requires AllFit(NextWrites(nextRelocations, |code|), |code|)
      requires forall k :: 0 <= k < |nextRelocations| ==> nextRelocations[k].relocation.FieldOk()
      modifies `code, `nextRelocations
      ensures code == WriteAll(old(code), NextWrites(old(nextRelocations), |old(code)|)) && nextRelocations == []
    {
      hide FieldBytes, WriteAll, Written, Delayed.Resolve;
      var nextTarget := |code|;
      var drained := nextRelocations;
      ghost var writes := NextWrites(drained, nextTarget);
      WriteAllPrefix(code, writes, 0);
      var k := 0;
      while k < |drained|
        invariant 0 <= k <= |drained| && |code| == nextTarget
        invariant AllFit(writes[..k], nextTarget) && code == WriteAll(old(code), writes[..k])
      {
        var relocation := drained[k];
        WriteAllPrefix(old(code), writes, k);
        code := relocation.Apply(code, relocation.Resolve(0, nextTarget));
        k := k + 1;
      }
      assert writes[..k] == writes;
      nextRelocations := [];
    }

    /** Finishes what comes before, and appends the stencil. */
    method Append(f: Family, s: Stencil, args: Args)
      requires Valid() && StencilOk(library, f, s, args) && ConstantsFit(Emitted(library, f, s, args, 0, |constants|))
      modifies `code, `relocations, `constants, `nextRelocations, `log
      ensures Valid()
      ensures SettleOk(old(code), old(nextRelocations), MaxDeferred(old(relocations)), library.empty)
      ensures var settled := Settled(old(code), old(nextRelocations), MaxDeferred(old(relocations)), library.empty);
        log == old(log) + [Emitted(library, f, s, args, |settled|, |old(constants)|)]
    {
      hide LogOk, SettleOk, Settled, StencilOk, Patched, Deferred, Constants, HoleIdsOk, AllConstants, AllDeferred,
           Pending, WellFormed, Emitted, AllWellFormed, MaxDeferred, InLibrary, ListAt, Relocation.FieldOk;
      SettleReady(library, log, code);
      PendingFields(library, log, code);
      Settle();
      ghost var e := Appended(library, f, s, args, |code|, |constants|);
      AppendKeeps(library, log, old(code), e);
      CopyAndPatch(f, s, args, |code|);
      AppendLists(library, log, e);
      log := log + [e];
    }

    /** Emits one stencil: it is selected by its operands, what comes before it is finished, and its
        code is appended. */
    method EmitOne(f: Family, inputs: seq<Location>, outputs: seq<Location>, holes: seq<Word>, jumps: seq<JumpTarget>)
      returns (r: Result<(), PatchError>)
      requires Valid() && Fits(library, f, inputs, outputs, holes, jumps, |constants|)
      modifies `code, `relocations, `constants, `nextRelocations, `log
      ensures Valid()
      ensures Emits(library, f, inputs, outputs, holes, jumps, old(State()), State(), r)
    {
      hide FamilyOk, LogOk, SettleOk, Settled, Selection, StencilOk, Patched, Deferred, Constants, HoleIdsOk, FateOf,
           AllWellFormed;
      if (exists i :: 0 <= i < |inputs| && IntoBits(inputs[i]) >= library.maxRegs)
         || (exists i :: 0 <= i < |outputs| && IntoBits(outputs[i]) >= library.maxRegs) {
        NotEncodable(inputs, outputs, library.maxRegs);
        return Err(InvalidRegister);
      }
      var selected := Select(f, inputs, outputs, holes);
      match selected {
        case None => return Err(StencilNotFound);
        case Some(s) =>
          Append(f, s.stencil, Args(inputs, outputs, holes, jumps, s.wide));
          return Ok(());
      }
    }

    /** Emits a stencil that goes on with the next one. */
    method Emit(f: Family, inputs: seq<Location>, outputs: seq<Location>, holes: seq<Word>)
      returns (r: Result<(), PatchError>)
      requires Valid() && Fits(library, f, inputs, outputs, holes, [NextStencil], |constants|)
      modifies `code, `relocations, `constants, `nextRelocations, `log
      ensures Valid()
      ensures ended ==> r == Err(AlreadyEnded) && unchanged(this)
      ensures !ended ==> Emits(library, f, inputs, outputs, holes, [NextStencil], old(State()), State(), r)
    {
      hide LogOk, CallOk, Choice, NewEmission, Emits, ConstantsFit, AllDeferred, AllConstants, Pending;
      if ended {
        return Err(AlreadyEnded);
      }
      r := EmitOne(f, inputs, outputs, holes, [NextStencil]);
    }

    /** Emits a stencil that returns, and ends the block. */
    method Ret(f: Family, inputs: seq<Location>, holes: seq<Word>) returns (r: Result<(), PatchError>)
      requires Valid() && Fits(library, f, inputs, [], holes, [], |constants|)
      modifies this
      ensures Valid() && ended && Emits(library, f, inputs, [], holes, [], old(State()), State(), r)
    {
      hide LogOk, CallOk, Choice, NewEmission, Emits, ConstantsFit, AllDeferred, AllConstants, Pending;
      ended := true;
      r := EmitOne(f, inputs, [], holes, []);
    }

    /** Emits a stencil that branches, and ends the block. */
    method EndBranch(f: Family, inputs: seq<Location>, outputs: seq<Location>, holes: seq<Word>, jumps: seq<JumpTarget>)
      returns (r: Result<(), PatchError>)
      requires Valid() && Fits(library, f, inputs, outputs, holes, jumps, |constants|)
      modifies this
      ensures Valid() && ended && Emits(library, f, inputs, outputs, holes, jumps, old(State()), State(), r)
    {
      hide LogOk, CallOk, Choice, NewEmission, Emits, ConstantsFit, AllDeferred, AllConstants, Pending;
      ended := true;
      r := Branch(f, inputs, outputs, holes, jumps);
    }

    /** Emits a stencil that branches. */
    method Branch(f: Family, inputs: seq<Location>, outputs: seq<Location>, holes: seq<Word>, jumps: seq<JumpTarget>)
      returns (r: Result<(), PatchError>)
      requires Valid() && Fits(library, f, inputs, outputs, holes, jumps, |constants|)
      modifies `code, `relocations, `constants, `nextRelocations, `log
      ensures Valid() && Emits(library, f, inputs, outputs, holes, jumps, old(State()), State(), r)
    {
      hide LogOk, CallOk, Choice, NewEmission, Emits, ConstantsFit, AllDeferred, AllConstants, Pending;
      r := EmitOne(f, inputs, outputs, holes, jumps);
    }

    method RuntimeTrampolineSymbols() returns (symbols: seq<nat>)
      ensures symbols == Symbols(relocations)
    {
      symbols := [];
      for m := 0 to |relocations|
        invariant symbols == Symbols(relocations[..m])
      {
        assert relocations[..m + 1][..m] == relocations[..m];
        var target := relocations[m].target;
        if !target.RuntimeSymbol? {
          continue;
        }
        if target.symbol !in symbols {
          symbols := symbols + [target.symbol];
        }
      }
      assert relocations[..|relocations|] == relocations;
    }

    method LongJumpStencil() returns (s: Option<Stencil>)
      requires LongJumpOk(library)
      ensures s == LongJump(library)
    {
      var selected := Select(library.longJump, [], [], [WORD - 1]);
      match selected {
        case None => s := None;
        case Some(found) => s := Some(found.stencil);
      }
    }

    /** How the finished block is laid out. */
    ghost function Layout(): Plan
      requires Valid() && LongJumpOk(library)
      reads this
    {
      hide LogOk, LongJumpOk;
      KnownOf(library, log, code);
      BlockPlan(library, |code|, relocations, constants)
    }

    method FinalLen() returns (len: nat)
      requires Valid() && LongJumpOk(library)
      ensures len == Layout().Len()
    {
      hide LogOk, LongJumpTable, LongJump, ListAt, Symbols, AllDeferred, AllConstants, Pending;
      KnownOf(library, log, code);
      var symbols := RuntimeTrampolineSymbols();
      var longJump := LongJumpStencil();
      var codeLen := |code| + |symbols| * (match longJump case None => 0 case Some(s) => s.codeLen);
      var constantCount := |constants| + |symbols|;
      ghost var p := Layout();
      assert codeLen == p.TrampolineAt(|p.symbols|) && |p.Values()| == constantCount;
      return if constantCount == 0 then codeLen else AlignUp(codeLen) + constantCount * WORD_BYTES;
    }

    method Measure() returns (len: Option<nat>)
      requires Valid() && LongJumpOk(library)
      ensures len == if ended then Some(Layout().Len()) else None
    {
      if !ended {
        return None;
      }
      var l := FinalLen();
      return Some(l);
    }

    /** Whether the block can be linked, and the error otherwise. */
    ghost function Verdict(site: Site): Result<(), PatchError>
      requires Valid() && LongJumpOk(library)
      reads this
    {
      if !ended then Err(NotEnded)
      else if nextRelocations != [] then Err(InvalidEnd)
      else if Symbols(relocations) != [] && LongJump(library) == None then Err(StencilNotFound)
      else if !AllResolvable(site, relocations) then Err(UnresolvedBlockTarget)
      else Ok(())
    }

    /** Lays the block down at `start` of the memory, which is mapped at `base`. */
    method FinalizeInto(memory: array<Byte>, base: nat, start: nat, blocks: seq<nat>)
      returns (r: Result<(), PatchError>)
      requires Valid() && LongJumpOk(library)
      requires |constants| + |Symbols(relocations)| <= CONSTANT_LIMIT
      requires start + Layout().Len() <= memory.Length
      modifies memory
      ensures Outside(memory, start, Layout().Len())
      ensures r == Verdict(Site(base, start, blocks))
      ensures r.Ok? ==>
        Linked(library, log, |code|, memory[start..start + Layout().Len()], Layout(), Site(base, start, blocks))
    {
      hide LogOk, LongJumpTable, LongJump, Symbols, AllDeferred, AllConstants, Pending, Linked, Layout, Plan.Len,
           AllResolvable, LongJumpOk;
      if !ended {
        return Err(NotEnded);
      }
      if nextRelocations != [] {
        return Err(InvalidEnd);
      }
      r := LayDown(memory, base, start, blocks);
    }

    /** Lays down a block that has an end. */
    method LayDown(memory: array<Byte>, base: nat, start: nat, blocks: seq<nat>) returns (r: Result<(), PatchError>)
      requires Valid() && LongJumpOk(library) && ended && nextRelocations == []
      requires |constants| + |Symbols(relocations)| <= CONSTANT_LIMIT
      requires start + Layout().Len() <= memory.Length
      modifies memory
      ensures Outside(memory, start, Layout().Len())
      ensures r == Verdict(Site(base, start, blocks))
      ensures r.Ok? ==>
        Linked(library, log, |code|, memory[start..start + Layout().Len()], Layout(), Site(base, start, blocks))
    {
      hide LogOk, LongJumpTable, LongJump, Symbols, AllDeferred, AllConstants, Pending, Linked, BlockPlan, Plan.Len,
        AllResolvable, LongJumpOk, Plan.Ok, Distinct, Plan.PoolBase, Plan.TrampolineAt, TrampolineDelayed,
        TrampolineAddresses, BaseImage, Written, Fixes, AllFit, WriteAll, Plan.Values, SymbolsExist, ClosedLog,
        PlanOf, PlanShape, Copies;
      var symbols := RuntimeTrampolineSymbols();
      var longJump := LongJumpStencil();
      var len := FinalLen();
      KnownOf(library, log, code);
      ghost var (p, image) := (Layout(), memory[start..start + len]);
      LayoutFacts(library, log, code, relocations, constants, p);
      PlanBounds(p);
      CopyInto(memory, start, len, 0, code);
      var addresses: seq<nat>, delayed: seq<Delayed>, current: nat := seq(|library.rtSymbols|, _ => 0), [], |code|;
      LayStart(p, base + start, code, addresses);
      if symbols != [] {
        match longJump {
          case None =>
            return Err(StencilNotFound);
          case Some(s) =>
            addresses, delayed, current := LayTrampolines(memory, start, len, base + start, library, s, symbols, code,
              |constants|, p, image);
        }
      }
      var constantBase := LayPool(memory, start, len, current, constants, SymbolAddresses(library, symbols), p, code,
          image);
      ghost var site := Site(base, start, blocks);
      FixFields(library, log, code, p, site);
      r := ResolveAll(memory, start, len, base, blocks, relocations + delayed, addresses, constantBase, p,
        BaseImage(p, code, image));
      if r.Ok? {
        LinkingCorrect(library, log, code, p, site, image);
      }
    }
  }
}
