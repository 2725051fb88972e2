/** What becomes of a stencil that is emitted into a block: its bytes, and the fate of each of its relocations. */
module Emissions {
  import opened Words
  import opened Buffers
  import opened Locations
  import opened Relocations
  import opened Stencils

  datatype Library = Library(
    code: seq<Byte>,
    empty: seq<Byte>,
    longJump: Family,
    rtSymbols: seq<Word>,
    maxRegs: nat)

  /** The operands of a stencil; `wide` says which variant was selected. */
  datatype Args = Args(inputs: seq<Location>, outputs: seq<Location>, holes: seq<Word>, jumps: seq<JumpTarget>,
      wide: bool)

  /** A stencil copied to `start` of a block, when `firstConstant` constants were pending. */
  datatype Emission = Emission(
    start: nat,
    bytes: seq<Byte>,
    relocs: seq<Relocation>,
    args: Args,
    firstConstant: nat)

  /** The numbers of the stack slots among the operands, in order. */
  function StackVars(locations: seq<Location>): seq<nat> {
    if locations == [] then []
    else
      var last := locations[|locations| - 1];
      StackVars(locations[..|locations| - 1]) + if last.Stack? then [last.slot] else []
  }

  /** Constants are numbered with 16 bits. */
  const CONSTANT_LIMIT: nat := 0x1_0000

  predicate InLibrary(lib: Library, f: Family, s: Stencil) {
    s.codeIndex + s.codeLen <= |lib.code| && s.relocationIndex <= |f.relocationData|
  }

  function StencilCode(lib: Library, s: Stencil): seq<Byte>
    requires s.codeIndex + s.codeLen <= |lib.code|
  {
    lib.code[s.codeIndex..s.codeIndex + s.codeLen]
  }

  // ----- the fate of a relocation -----

  datatype Fate = Now(value: nat) | Later(target: DelayedTarget)

  /** A hole of a wide stencil, which gets a constant of the block. */
  predicate IsWide(e: Emission, i: nat)
    requires i < |e.relocs|
  {
    e.args.wide && e.relocs[i].kind.Hole?
  }

  predicate HoleIdsOk(e: Emission, n: nat)
    requires n <= |e.relocs|
  {
    forall i :: 0 <= i < n ==> e.relocs[i].kind.Hole? ==> e.relocs[i].id < |e.args.holes|
  }

  /** The values of the wide holes among the first `n` relocations. */
  function Constants(e: Emission, n: nat): seq<Word>
    requires n <= |e.relocs| && HoleIdsOk(e, n)
  {
    if n == 0 then []
    else Constants(e, n - 1) + if IsWide(e, n - 1) then [e.args.holes[e.relocs[n - 1].id]] else []
  }

  /** The identifiers in the relocations are those of operands that exist. */
  predicate IdOk(lib: Library, e: Emission, i: nat)
    requires i < |e.relocs|
  {
    var r := e.relocs[i];
    match r.kind
    case Hole => r.id < |e.args.holes|
    case Stack => r.id < |StackVars(e.args.inputs + e.args.outputs)|
    case Target => r.id < |e.args.jumps|
    case Runtime => r.id < |lib.rtSymbols|
    case Unknown => false
  }

  predicate IdsOk(lib: Library, e: Emission) {
    forall i :: 0 <= i < |e.relocs| ==> IdOk(lib, e, i)
  }

  /** What happens to a relocation that does not become a constant, given the operands it may refer to. */
  function DirectFate(r: Relocation, stackVars: seq<nat>, holes: seq<Word>, jumps: seq<JumpTarget>,
                      rtSymbols: seq<Word>): Fate
    requires !r.kind.Unknown?
    requires r.kind.Hole? ==> r.id < |holes|
    requires r.kind.Stack? ==> r.id < |stackVars|
    requires r.kind.Target? ==> r.id < |jumps|
    requires r.kind.Runtime? ==> r.id < |rtSymbols|
  {
    match r.kind
    case Hole => Now(holes[r.id])
    case Stack => Now(stackVars[r.id])
    case Target => Later(match jumps[r.id] case NextStencil => AfterStencil case Target(b) => Block(b))
    case Runtime => if r.SupportsValue(rtSymbols[r.id]) then Now(rtSymbols[r.id]) else Later(RuntimeSymbol(r.id))
  }

  function FateOf(lib: Library, e: Emission, i: nat): Fate
    requires i < |e.relocs| && IdsOk(lib, e)
  {
    assert IdOk(lib, e, i);
    assert HoleIdsOk(e, i) by {
      forall j | 0 <= j < i ensures e.relocs[j].kind.Hole? ==> e.relocs[j].id < |e.args.holes| {
        assert IdOk(lib, e, j);
      }
    }
    if IsWide(e, i) then Later(Constant(e.firstConstant + |Constants(e, i)|))
    else DirectFate(e.relocs[i], StackVars(e.args.inputs + e.args.outputs), e.args.holes, e.args.jumps, lib.rtSymbols)
  }

  predicate IsNext(lib: Library, e: Emission, i: nat)
    requires i < |e.relocs| && IdsOk(lib, e)
  {
    FateOf(lib, e, i) == Later(AfterStencil)
  }

  // ----- what stencils satisfy -----

  /** Relocations are sorted and do not overlap, their fields hold whole bytes inside the code, jumps to the
      next stencil are relative, and what is written at once is absolute. */
  ghost predicate RelocationsOk(lib: Library, e: Emission) {
    && IdsOk(lib, e)
    && (forall i :: 0 <= i < |e.relocs| ==> e.relocs[i].FieldOk() && e.relocs[i].End() <= |e.bytes|)
    && (forall i, j :: 0 <= i < j < |e.relocs| ==> e.relocs[i].End() <= e.relocs[j].offset)
    && (forall i :: 0 <= i < |e.relocs| && IsNext(lib, e, i) ==> e.relocs[i].relative)
    && (forall i :: 0 <= i < |e.relocs| && FateOf(lib, e, i).Now? ==> !e.relocs[i].relative)
  }

  /** The writes of the first `n` relocations that are known at once. */
  function NowWrites(lib: Library, e: Emission, n: nat): seq<Write>
    requires n <= |e.relocs| && IdsOk(lib, e)
  {
    if n == 0 then []
    else NowWrites(lib, e, n - 1) + match FateOf(lib, e, n - 1)
      case Now(v) => [Write(e.relocs[n - 1].offset, FieldBytes(e.relocs[n - 1], Wrap(v)))]
      case Later(_) => []
  }

  /** The first `n` relocations that are deferred, to the end of the stencil or further. */
  function Deferred(lib: Library, e: Emission, n: nat, next: bool): seq<Delayed>
    requires n <= |e.relocs| && IdsOk(lib, e)
  {
    if n == 0 then []
    else Deferred(lib, e, n - 1, next) + match FateOf(lib, e, n - 1)
      case Now(_) => []
      case Later(target) => if target.AfterStencil? == next then [Delayed(e.start, e.relocs[n - 1], target)] else []
  }

  lemma {:induction false} NowWritesFit(lib: Library, e: Emission, n: nat)
    requires n <= |e.relocs| && RelocationsOk(lib, e)
    ensures AllFit(NowWrites(lib, e, n), |e.bytes|)
    ensures n > 0 ==> forall k ::
      0 <= k < |NowWrites(lib, e, n)| ==>
          NowWrites(lib, e, n)[k].End() <= e.relocs[n - 1].End()
  {
    if n > 0 {
      NowWritesFit(lib, e, n - 1);
      var before := NowWrites(lib, e, n - 1);
      if n > 1 {
        assert e.relocs[n - 2].End() <= e.relocs[n - 1].offset;
      }
      forall k | 0 <= k < |before| ensures before[k].End() <= e.relocs[n - 1].End() {
      }
    }
  }

  /** The bytes of the stencil after the first `n` relocations. */
  function Patched(lib: Library, e: Emission, n: nat): (r: seq<Byte>)
    requires n <= |e.relocs| && RelocationsOk(lib, e)
    ensures |r| == |e.bytes|
  {
    NowWritesFit(lib, e, n);
    WriteAll(e.bytes, NowWrites(lib, e, n))
  }

  // ----- the writes that are known at once -----

  lemma PatchedStep(lib: Library, e: Emission, n: nat)
    requires n < |e.relocs| && RelocationsOk(lib, e)
    ensures e.relocs[n].End() <= |e.bytes| && IdsOk(lib, e)
    ensures Patched(lib, e, n + 1) == match FateOf(lib, e, n)
      case Now(v) => Written(Patched(lib, e, n), e.relocs[n].offset, FieldBytes(e.relocs[n], Wrap(v)))
      case Later(_) => Patched(lib, e, n)
  {
    NowWritesFit(lib, e, n);
    NowWritesFit(lib, e, n + 1);
    hide FateOf, FieldBytes, RelocationsOk;
    var before := NowWrites(lib, e, n);
    match FateOf(lib, e, n)
    case Now(v) =>
      var w := Write(e.relocs[n].offset, FieldBytes(e.relocs[n], Wrap(v)));
      assert (before + [w])[..|before|] == before;
    case Later(_) =>
      assert NowWrites(lib, e, n + 1) == before;
  }

  lemma {:induction false} PatchedHolds(lib: Library, e: Emission, n: nat, i: nat)
    requires i < n <= |e.relocs| && RelocationsOk(lib, e) && FateOf(lib, e, i).Now?
    ensures Holds(Patched(lib, e, n), e.relocs[i].offset, FieldBytes(e.relocs[i], Wrap(FateOf(lib, e, i).value)))
    decreases n
  {
    hide Patched, FateOf, FieldBytes, RelocationsOk, Written, Holds, Wrap;
    if i == n - 1 {
      PatchedNow(lib, e, i);
    } else {
      PatchedHolds(lib, e, n - 1, i);
      PatchedOnward(lib, e, n - 1, i);
    }
  }

  /** A field that is written at once is there. */
  lemma PatchedNow(lib: Library, e: Emission, i: nat)
    requires i < |e.relocs| && RelocationsOk(lib, e) && FateOf(lib, e, i).Now?
    ensures Holds(Patched(lib, e, i + 1), e.relocs[i].offset, FieldBytes(e.relocs[i], Wrap(FateOf(lib, e, i).value)))
  {
    hide Patched, FateOf, FieldBytes, RelocationsOk, Written, Holds, Wrap;
    PatchedStep(lib, e, i);
    var r := e.relocs[i];
    WrittenHolds(Patched(lib, e, i), Write(r.offset, FieldBytes(r, Wrap(FateOf(lib, e, i).value))));
  }

  /** It stays when the field of a later relocation is written. */
  lemma PatchedOnward(lib: Library, e: Emission, n: nat, i: nat)
    requires i < n < |e.relocs| && RelocationsOk(lib, e) && FateOf(lib, e, i).Now?
    requires Holds(Patched(lib, e, n), e.relocs[i].offset, FieldBytes(e.relocs[i], Wrap(FateOf(lib, e, i).value)))
    ensures Holds(Patched(lib, e, n + 1), e.relocs[i].offset, FieldBytes(e.relocs[i], Wrap(FateOf(lib, e, i).value)))
  {
    hide Patched, FateOf, FieldBytes, RelocationsOk, Written, Holds, Wrap;
    PatchedStep(lib, e, n);
    InOrder(lib, e, i, n);
    var (r, s) := (e.relocs[i], e.relocs[n]);
    match FateOf(lib, e, n)
    case Later(_) =>
    case Now(v) =>
      WrittenKeeps(Patched(lib, e, n), Write(s.offset, FieldBytes(s, Wrap(v))),
                   Write(r.offset, FieldBytes(r, Wrap(FateOf(lib, e, i).value))));
  }

  lemma InOrder(lib: Library, e: Emission, i: nat, n: nat)
    requires i < n < |e.relocs| && RelocationsOk(lib, e)
    ensures e.relocs[i].End() <= e.relocs[n].offset
  {
  }

  /** Byte `j` of the stencil belongs to some field. */
  ghost predicate InField(e: Emission, j: int) {
    exists i :: 0 <= i < |e.relocs| && e.relocs[i].offset <= j < e.relocs[i].End()
  }

  lemma NotInField(e: Emission, i: nat, j: nat)
    requires i < |e.relocs| && !InField(e, j)
    ensures !(e.relocs[i].offset <= j < e.relocs[i].End())
  {
  }

  /** A byte that belongs to no field that is written at once. */
  lemma {:induction false} PatchedUntouched(lib: Library, e: Emission, n: nat, j: nat)
    requires n <= |e.relocs| && RelocationsOk(lib, e) && IdsOk(lib, e) && j < |e.bytes|
    requires forall k :: 0 <= k < n && FateOf(lib, e, k).Now? ==> !(e.relocs[k].offset <= j < e.relocs[k].End())
    ensures Patched(lib, e, n)[j] == e.bytes[j]
  {
    hide FateOf, FieldBytes, RelocationsOk, IdsOk, Patched, Written;
    if n == 0 {
      NothingPatched(lib, e);
    } else {
      PatchedUntouched(lib, e, n - 1, j);
      StepMisses(lib, e, n - 1, j);
    }
  }

  lemma StepMisses(lib: Library, e: Emission, n: nat, j: nat)
    requires n < |e.relocs| && RelocationsOk(lib, e) && IdsOk(lib, e) && j < |e.bytes|
    requires FateOf(lib, e, n).Now? ==> !(e.relocs[n].offset <= j < e.relocs[n].End())
    ensures Patched(lib, e, n + 1)[j] == Patched(lib, e, n)[j]
  {
    hide FateOf, FieldBytes, RelocationsOk, IdsOk, Patched, Written;
    PatchedStep(lib, e, n);
  }

  lemma PatchedElsewhere(lib: Library, e: Emission, n: nat, j: nat)
    requires n <= |e.relocs| && RelocationsOk(lib, e) && j < |e.bytes| && !InField(e, j)
    ensures Patched(lib, e, n)[j] == e.bytes[j]
  {
    hide FateOf, InField, Patched;
    forall k | 0 <= k < n && FateOf(lib, e, k).Now? ensures !(e.relocs[k].offset <= j < e.relocs[k].End()) {
      NotInField(e, k, j);
    }
    PatchedUntouched(lib, e, n, j);
  }

  lemma NothingPatched(lib: Library, e: Emission)
    requires RelocationsOk(lib, e)
    ensures Patched(lib, e, 0) == e.bytes
  {
  }

  // ----- the relocations that are deferred -----

  /** Every deferred relocation stands for one of the stencil's. */
  lemma {:induction false} DeferredFrom(lib: Library, e: Emission, n: nat, next: bool, k: nat) returns (i: nat)
    requires n <= |e.relocs| && IdsOk(lib, e) && k < |Deferred(lib, e, n, next)|
    ensures i < n && FateOf(lib, e, i).Later? && FateOf(lib, e, i).target.AfterStencil? == next
    ensures Deferred(lib, e, n, next)[k] == Delayed(e.start, e.relocs[i], FateOf(lib, e, i).target)
  {
    hide FateOf;
    if k < |Deferred(lib, e, n - 1, next)| {
      i := DeferredFrom(lib, e, n - 1, next, k);
    } else {
      i := n - 1;
    }
  }

  /** Every later relocation is deferred. */
  lemma {:induction false} DeferredHas(lib: Library, e: Emission, n: nat, next: bool, i: nat) returns (k: nat)
    requires i < n <= |e.relocs| && IdsOk(lib, e)
    requires FateOf(lib, e, i).Later? && FateOf(lib, e, i).target.AfterStencil? == next
    ensures k < |Deferred(lib, e, n, next)|
    ensures Deferred(lib, e, n, next)[k] == Delayed(e.start, e.relocs[i], FateOf(lib, e, i).target)
  {
    hide FateOf;
    if i == n - 1 {
      k := |Deferred(lib, e, n - 1, next)|;
    } else {
      k := DeferredHas(lib, e, n - 1, next, i);
    }
  }

  predicate SortedDelayed(ds: seq<Delayed>) {
    forall k, l :: 0 <= k < l < |ds| ==> ds[k].End() <= ds[l].Location()
  }

  lemma {:induction false} DeferredSorted(lib: Library, e: Emission, n: nat, next: bool)
    requires n <= |e.relocs| && RelocationsOk(lib, e)
    ensures SortedDelayed(Deferred(lib, e, n, next))
    ensures forall k :: 0 <= k < |Deferred(lib, e, n, next)| ==>
      && e.start <= Deferred(lib, e, n, next)[k].Location()
      && Deferred(lib, e, n, next)[k].End() <= e.start + (if n == 0 then 0 else e.relocs[n - 1].End())
      && Deferred(lib, e, n, next)[k].relocation.FieldOk()
  {
    hide FateOf;
    if n > 0 {
      DeferredSorted(lib, e, n - 1, next);
      if n > 1 {
        assert e.relocs[n - 2].End() <= e.relocs[n - 1].offset;
      }
    }
  }
}
