/** What a linked block holds, said from the operands of its stencils alone (`src/patch.rs`,
    `crates/patchouly-core/src/relocation.rs`). */
module LinkedFields {
  import opened Words
  import opened Buffers
  import opened Locations
  import opened Relocations
  import opened Stencils
  import opened Emissions
  import opened PatchBlocks
  import opened PatchLogs
  import opened Layouts
  import opened LinkedBlocks

  // ----- fields -----

  /** The field at `place` of the block refers to `value`: it holds S + A, or S + A - P if it is relative. */
  predicate Refers(image: seq<Byte>, r: Relocation, place: nat, value: int, blockBase: nat) {
    && place + r.size / 8 <= |image|
    && image[place..place + r.size / 8]
       == Bytes(Wrap(if r.relative then value + r.addend - (blockBase + place) else value + r.addend), r.size / 8)
  }

  /** `slot` is that of the stack operand with `n` stack operands before it. */
  ghost predicate NthSlot(operands: seq<Location>, n: nat, slot: nat) {
    exists i :: 0 <= i < |operands| && operands[i] == Location.Stack(slot) && |StackBefore(operands, i)| == n
  }

  ghost function StackBefore(operands: seq<Location>, i: nat): set<nat>
    requires i <= |operands|
  {
    set j: nat | j < i && operands[j].Stack?
  }

  /** Eight bytes of the block, aligned, that hold the word. */
  predicate WordAt(image: seq<Byte>, at: nat, word: Word) {
    at % 8 == 0 && at + 8 <= |image| && Decode(image[at..at + 8]) == word
  }

  /** What field `i` of a stencil refers to, if the stencil ends at `end`. */
  ghost predicate FieldRight(lib: Library, image: seq<Byte>, e: Emission, end: nat, i: nat, p: Plan, site: Site)
    requires i < |e.relocs|
  {
    var (r, place, base) := (e.relocs[i], e.start + e.relocs[i].offset, site.BlockBase());
    match r.kind
    case Hole =>
      r.id < |e.args.holes| &&
      if e.args.wide then
        exists at: nat :: WordAt(image, at, e.args.holes[r.id]) && Refers(image, r, place, base + at, base)
      else Refers(image, r, place, e.args.holes[r.id], base)
    case Stack =>
      exists slot: nat :: NthSlot(e.args.inputs + e.args.outputs, r.id, slot) && Refers(image, r, place, slot, base)
    case Target =>
      r.id < |e.args.jumps| &&
      (match e.args.jumps[r.id]
       case NextStencil => end <= place || Refers(image, r, place, base + end, base)
       case Target(b) => b < |site.offsets| && Refers(image, r, place, site.base + site.offsets[b], base))
    case Runtime =>
      r.id < |lib.rtSymbols| &&
      if r.SupportsValue(lib.rtSymbols[r.id]) then Refers(image, r, place, lib.rtSymbols[r.id], base)
      else
        exists t :: 0 <= t < |p.symbols| && p.symbols[t] == r.id
          && Refers(image, r, place, base + p.TrampolineAt(t), base)
    case Unknown => false
  }

  lemma HoldsRefers(image: seq<Byte>, r: Relocation, place: nat, value: nat, blockBase: nat)
    requires Holds(image, place, Bytes(Formula(r, value, blockBase + place), r.Width()))
    ensures Refers(image, r, place, value, blockBase)
  {
  }

  lemma WordBytes(w: Word)
    ensures Decode(Bytes(w, 8)) == w
  {
    hide Decode, Bytes, Pow2;
    DecodeBytes(w, 8);
    Pow2Word();
  }

  /** Every slot of the pool has eight aligned bytes, which hold its value. */
  lemma SlotRight(image: seq<Byte>, p: Plan, c: nat)
    requires PoolLinked(image, p) && c < |p.Values()|
    ensures WordAt(image, p.SlotAt(c), p.Values()[c])
  {
    hide Decode, Bytes, Plan.Values, Plan.TrampolineAt, AlignUp;
    assert Holds(image, p.SlotAt(c), Bytes(p.Values()[c], WORD_BYTES));
    WordBytes(p.Values()[c]);
  }

  // ----- field by field -----

  lemma HoleRight(lib: Library, image: seq<Byte>, e: Emission, end: nat, i: nat, p: Plan, site: Site)
    requires IdsOk(lib, e) && i < |e.relocs| && e.relocs[i].kind == Hole && PoolLinked(image, p)
    requires FieldLinked(lib, image, e, end, i, p, site)
    ensures FieldRight(lib, image, e, end, i, p, site)
  {
    hide PoolLinked, Formula, Bytes, WordAt, Refers, Holds, Plan.SlotAt, Plan.TrampolineAt, Constants;
    var (r, place, base) := (e.relocs[i], e.start + e.relocs[i].offset, site.BlockBase());
    assert IdOk(lib, e, i);
    HoldsRefers(image, r, place, SymbolOf(lib, e, end, i, p, site), base);
    if e.args.wide {
      var c := FateOf(lib, e, i).target.index;
      SlotRight(image, p, c);
      assert p.Values()[c] == p.constants[c];
    }
  }

  lemma StackRight(lib: Library, image: seq<Byte>, e: Emission, end: nat, i: nat, p: Plan, site: Site)
    requires IdsOk(lib, e) && i < |e.relocs| && e.relocs[i].kind == PatchKind.Stack
    requires FieldLinked(lib, image, e, end, i, p, site)
    ensures FieldRight(lib, image, e, end, i, p, site)
  {
    hide Formula, Bytes, Refers, Holds, NthSlot, StackVars;
    var (r, place, base) := (e.relocs[i], e.start + e.relocs[i].offset, site.BlockBase());
    assert IdOk(lib, e, i);
    HoldsRefers(image, r, place, SymbolOf(lib, e, end, i, p, site), base);
    StackVarIs(e.args.inputs + e.args.outputs, r.id);
  }

  lemma TargetRight(lib: Library, image: seq<Byte>, e: Emission, end: nat, i: nat, p: Plan, site: Site)
    requires IdsOk(lib, e) && i < |e.relocs| && e.relocs[i].kind == PatchKind.Target
    requires FieldLinked(lib, image, e, end, i, p, site)
    ensures FieldRight(lib, image, e, end, i, p, site)
  {
    hide Formula, Bytes, Refers, Holds;
    var (r, place, base) := (e.relocs[i], e.start + e.relocs[i].offset, site.BlockBase());
    assert IdOk(lib, e, i);
    if !(IsNext(lib, e, i) && end <= place) {
      HoldsRefers(image, r, place, SymbolOf(lib, e, end, i, p, site), base);
    }
  }

  lemma RuntimeRight(lib: Library, image: seq<Byte>, e: Emission, end: nat, i: nat, p: Plan, site: Site)
    requires IdsOk(lib, e) && i < |e.relocs| && e.relocs[i].kind == PatchKind.Runtime
    requires FieldLinked(lib, image, e, end, i, p, site)
    ensures FieldRight(lib, image, e, end, i, p, site)
  {
    hide Formula, Bytes, Refers, Holds, Relocation.SupportsValue, Plan.TrampolineAt;
    var (r, place, base) := (e.relocs[i], e.start + e.relocs[i].offset, site.BlockBase());
    assert IdOk(lib, e, i);
    HoldsRefers(image, r, place, SymbolOf(lib, e, end, i, p, site), base);
  }

  // ----- stack operands -----

  lemma {:induction false} StackCounted(operands: seq<Location>, i: nat)
    requires i <= |operands|
    ensures |StackBefore(operands, i)| == |StackVars(operands[..i])|
    ensures i < |operands| && operands[i].Stack? ==>
      |StackVars(operands[..i])| < |StackVars(operands)|
      && StackVars(operands)[|StackVars(operands[..i])|] == operands[i].slot
  {
    StackSize(operands, i);
    if i < |operands| && operands[i].Stack? {
      StackVarsPrefix(operands, i + 1);
      assert operands[..i + 1][..i] == operands[..i];
    }
  }

  lemma {:induction false} StackSize(operands: seq<Location>, i: nat)
    requires i <= |operands|
    ensures |StackBefore(operands, i)| == |StackVars(operands[..i])|
  {
    if i > 0 {
      StackSize(operands, i - 1);
      assert operands[..i][..i - 1] == operands[..i - 1];
      var before := StackBefore(operands, i - 1);
      assert StackBefore(operands, i) == if operands[i - 1].Stack? then before + {i - 1} else before;
    } else {
      assert StackBefore(operands, 0) == {};
    }
  }

  lemma {:induction false} StackVarsPrefix(operands: seq<Location>, i: nat)
    requires i <= |operands|
    ensures StackVars(operands[..i]) <= StackVars(operands)
    decreases |operands| - i
  {
    if i < |operands| {
      StackVarsPrefix(operands, i + 1);
      assert operands[..i + 1][..i] == operands[..i];
    } else {
      assert operands[..i] == operands;
    }
  }

  /** The stack slots in order are those of the stack operands in order. */
  lemma StackVarIs(operands: seq<Location>, n: nat)
    requires n < |StackVars(operands)|
    ensures NthSlot(operands, n, StackVars(operands)[n])
  {
    hide StackVars;
    var i := StackOperand(operands, n);
    StackCounted(operands, i);
  }

  lemma {:induction false} StackOperand(operands: seq<Location>, n: nat) returns (i: nat)
    requires n < |StackVars(operands)|
    ensures i < |operands| && operands[i].Stack? && |StackVars(operands[..i])| == n
  {
    var last := |operands| - 1;
    if n < |StackVars(operands[..last])| {
      i := StackOperand(operands[..last], n);
      assert operands[..last][..i] == operands[..i];
    } else {
      i := last;
    }
  }

  // ----- the law -----

  /** In a linked block, every field of every stencil refers to what its operand says. */
  lemma FieldsRight(lib: Library, log: seq<Emission>, size: nat, image: seq<Byte>, p: Plan, site: Site, k: nat, i: nat)
    requires AllWellFormed(lib, log) && Linked(lib, log, size, image, p, site)
    requires k < |log| && i < |log[k].relocs|
    ensures FieldRight(lib, image, log[k], EndOf(log, size, k), i, p, site)
  {
    hide FieldRight, FieldLinked, TrampolineLinked, TrampolineSupplied, TailOk, EndOk, InField, PoolLinked;
    var (e, end) := (log[k], EndOf(log, size, k));
    assert StencilLinked(lib, image, e, end, p, site);
    assert FieldLinked(lib, image, e, end, i, p, site);
    assert IdOk(lib, e, i);
    match e.relocs[i].kind
    case Hole => HoleRight(lib, image, e, end, i, p, site);
    case Stack => StackRight(lib, image, e, end, i, p, site);
    case Target => TargetRight(lib, image, e, end, i, p, site);
    case Runtime => RuntimeRight(lib, image, e, end, i, p, site);
  }

  // ----- the end of a stencil -----

  /** The value is not known when the stencil is copied. */
  predicate Waits(lib: Library, e: Emission, i: nat)
    requires i < |e.relocs|
  {
    var r := e.relocs[i];
    match r.kind
    case Hole => e.args.wide
    case Stack => false
    case Target => true
    case Runtime => r.id < |lib.rtSymbols| && !r.SupportsValue(lib.rtSymbols[r.id])
    case Unknown => true
  }

  /** Otherwise, the value that is written at once. */
  ghost predicate Known(lib: Library, e: Emission, i: nat, value: nat)
    requires i < |e.relocs|
  {
    var r := e.relocs[i];
    match r.kind
    case Hole => r.id < |e.args.holes| && value == e.args.holes[r.id]
    case Stack => NthSlot(e.args.inputs + e.args.outputs, r.id, value)
    case Target => false
    case Runtime => r.id < |lib.rtSymbols| && value == lib.rtSymbols[r.id]
    case Unknown => false
  }

  /** Field `i` is a jump to the next stencil, and every later field is written at once. */
  predicate LastJump(lib: Library, e: Emission, i: nat)
    requires i < |e.relocs|
  {
    && e.relocs[i].kind == PatchKind.Target && e.relocs[i].id < |e.args.jumps|
    && e.args.jumps[e.relocs[i].id] == NextStencil
    && forall k :: i < k < |e.relocs| ==> !Waits(lib, e, k)
  }

  /** Field `i` of the bytes is the value plus the addend. */
  predicate Filled(bytes: seq<Byte>, r: Relocation, value: int) {
    && r.offset + r.size / 8 <= |bytes|
    && bytes[r.offset..r.offset + r.size / 8] == Bytes(Wrap(value + r.addend), r.size / 8)
  }

  /** The bytes of the stencil with all known values, and with jump `i` going to their end. */
  ghost predicate ClosedBytes(lib: Library, e: Emission, i: nat, bytes: seq<Byte>)
    requires i < |e.relocs|
  {
    && |bytes| == |e.bytes| && Filled(bytes, e.relocs[i], |e.bytes| - e.relocs[i].offset)
    && (forall k :: 0 <= k < |e.relocs| && k != i && !Waits(lib, e, k) ==>
          exists value: nat :: Known(lib, e, k, value) && Filled(bytes, e.relocs[k], value))
    && (forall j :: 0 <= j < |bytes| && !FilledAt(lib, e, i, j) ==> bytes[j] == e.bytes[j])
  }

  /** Byte `j` belongs to jump `i` or to a field that is written at once. */
  ghost predicate FilledAt(lib: Library, e: Emission, i: nat, j: nat)
    requires i < |e.relocs|
  {
    exists k :: 0 <= k < |e.relocs| && (k == i || !Waits(lib, e, k))
                && e.relocs[k].offset <= j < e.relocs[k].offset + e.relocs[k].size / 8
  }

  /** The stencil ends with a jump to the next one that does nothing: its bytes are those of the empty stencil. */
  ghost predicate EndsInNoOp(lib: Library, e: Emission) {
    |lib.empty| > 0 &&
    exists i, bytes :: 0 <= i < |e.relocs| && LastJump(lib, e, i) && e.start + e.relocs[i].offset > 0
                       && ClosedBytes(lib, e, i, bytes) && EndsWith(bytes, lib.empty)
  }

  lemma WaitsMeans(lib: Library, e: Emission, i: nat)
    requires IdsOk(lib, e) && i < |e.relocs|
    ensures Waits(lib, e, i) <==> FateOf(lib, e, i).Later?
    ensures IsNext(lib, e, i) <==>
      e.relocs[i].kind == PatchKind.Target && e.relocs[i].id < |e.args.jumps|
      && e.args.jumps[e.relocs[i].id] == NextStencil
    ensures FateOf(lib, e, i).Now? ==>
      forall value: nat :: Known(lib, e, i, value) <==> value == FateOf(lib, e, i).value
  {
    hide Relocation.SupportsValue, NthSlot, StackVars, Constants;
    assert IdOk(lib, e, i);
    if e.relocs[i].kind == PatchKind.Stack {
      StackVarIs(e.args.inputs + e.args.outputs, e.relocs[i].id);
      forall value: nat | NthSlot(e.args.inputs + e.args.outputs, e.relocs[i].id, value)
        ensures value == FateOf(lib, e, i).value {
        OneNthSlot(e.args.inputs + e.args.outputs, e.relocs[i].id, value);
      }
    }
  }

  lemma OneNthSlot(operands: seq<Location>, n: nat, slot: nat)
    requires NthSlot(operands, n, slot)
    ensures n < |StackVars(operands)| && slot == StackVars(operands)[n]
  {
    hide StackVars;
    var i :| 0 <= i < |operands| && operands[i] == Location.Stack(slot) && |StackBefore(operands, i)| == n;
    StackCounted(operands, i);
  }

  lemma LastJumpMeans(lib: Library, e: Emission, i: nat)
    requires IdsOk(lib, e) && i < |e.relocs|
    ensures LastJump(lib, e, i) <==> IsLastNext(lib, e, i) && LastDeferred(lib, e, i)
  {
    hide FateOf, Waits;
    forall k | 0 <= k < |e.relocs| ensures Waits(lib, e, k) <==> FateOf(lib, e, k).Later? {
      WaitsMeans(lib, e, k);
    }
    WaitsMeans(lib, e, i);
  }

  lemma HoldsFilled(bytes: seq<Byte>, r: Relocation, value: int)
    requires Holds(bytes, r.offset, FieldBytes(r, Wrap(value)))
    ensures Filled(bytes, r, value)
  {
    hide Bytes;
    WrapSum(value, r.addend);
  }

  /** What `Closed` computes is the stencil with its known values and the jump to its end. */
  lemma ClosedIs(lib: Library, e: Emission, i: nat)
    requires RelocationsOk(lib, e) && i < |e.relocs|
    ensures ClosedBytes(lib, e, i, Closed(lib, e, i))
  {
    hide FateOf, FieldBytes, RelocationsOk, Patched, Written, Waits, Known, Filled, FilledAt, Holds;
    OkIds(lib, e);
    RelocSizes(lib, e, i);
    var (r, open, closed) := (e.relocs[i], Patched(lib, e, |e.relocs|), Closed(lib, e, i));
    var w := Write(r.offset, FieldBytes(r, Wrap(|e.bytes| - r.offset)));
    WrittenHolds(open, w);
    HoldsFilled(closed, r, |e.bytes| - r.offset);
    forall k | 0 <= k < |e.relocs| && k != i && !Waits(lib, e, k)
      ensures exists value: nat :: Known(lib, e, k, value) && Filled(closed, e.relocs[k], value)
    {
      ClosedKnown(lib, e, i, k);
    }
    forall j | 0 <= j < |closed| && !FilledAt(lib, e, i, j) ensures closed[j] == e.bytes[j] {
      ClosedElsewhere(lib, e, i, j);
    }
  }

  lemma ClosedKnown(lib: Library, e: Emission, i: nat, k: nat)
    requires RelocationsOk(lib, e) && i < |e.relocs| && k < |e.relocs| && k != i && !Waits(lib, e, k)
    ensures exists value: nat :: Known(lib, e, k, value) && Filled(Closed(lib, e, i), e.relocs[k], value)
  {
    hide FateOf, FieldBytes, RelocationsOk, Patched, Written, Waits, Known, Filled, Holds;
    OkIds(lib, e);
    RelocSizes(lib, e, i);
    RelocSizes(lib, e, k);
    WaitsMeans(lib, e, k);
    var (r, v) := (e.relocs[i], FateOf(lib, e, k).value);
    var (w, kept) := (Write(r.offset, FieldBytes(r, Wrap(|e.bytes| - r.offset))),
                      Write(e.relocs[k].offset, FieldBytes(e.relocs[k], Wrap(v))));
    PatchedHolds(lib, e, |e.relocs|, k);
    FieldsApart(lib, e, i, k);
    WrittenKeeps(Patched(lib, e, |e.relocs|), w, kept);
    HoldsFilled(Closed(lib, e, i), e.relocs[k], v);
  }

  lemma ClosedElsewhere(lib: Library, e: Emission, i: nat, j: nat)
    requires RelocationsOk(lib, e) && i < |e.relocs| && j < |e.bytes| && !FilledAt(lib, e, i, j)
    ensures Closed(lib, e, i)[j] == e.bytes[j]
  {
    hide FateOf, FieldBytes, RelocationsOk, Patched, Waits;
    OkIds(lib, e);
    RelocSizes(lib, e, i);
    forall k | 0 <= k < |e.relocs| && FateOf(lib, e, k).Now?
      ensures !(e.relocs[k].offset <= j < e.relocs[k].End()) {
      WaitsMeans(lib, e, k);
    }
    PatchedUntouched(lib, e, |e.relocs|, j);
  }

  /** No other bytes are. */
  lemma ClosedOnly(lib: Library, e: Emission, i: nat, bytes: seq<Byte>)
    requires RelocationsOk(lib, e) && i < |e.relocs| && ClosedBytes(lib, e, i, bytes)
    ensures bytes == Closed(lib, e, i)
  {
    hide FateOf, RelocationsOk, Closed, Waits, Known, FilledAt, Filled;
    var closed := Closed(lib, e, i);
    OkIds(lib, e);
    ClosedIs(lib, e, i);
    forall j: nat | 0 <= j < |bytes| ensures bytes[j] == closed[j] {
      if FilledAt(lib, e, i, j) {
        SameFilled(lib, e, i, bytes, closed, j);
      }
    }
  }

  lemma SameFilled(lib: Library, e: Emission, i: nat, a: seq<Byte>, b: seq<Byte>, j: nat)
    requires IdsOk(lib, e) && i < |e.relocs| && ClosedBytes(lib, e, i, a) && ClosedBytes(lib, e, i, b)
    requires FilledAt(lib, e, i, j) && j < |e.bytes|
    ensures a[j] == b[j]
  {
    hide FateOf, Waits, Known, Bytes;
    var k :| 0 <= k < |e.relocs| && (k == i || !Waits(lib, e, k))
             && e.relocs[k].offset <= j < e.relocs[k].offset + e.relocs[k].size / 8;
    var r := e.relocs[k];
    if k == i {
      SameField(a, b, r, |e.bytes| - r.offset, j);
    } else {
      WaitsMeans(lib, e, k);
      var v: nat :| Known(lib, e, k, v) && Filled(a, r, v);
      var w: nat :| Known(lib, e, k, w) && Filled(b, r, w);
      SameField(a, b, r, v, j);
    }
  }

  lemma SameField(a: seq<Byte>, b: seq<Byte>, r: Relocation, value: int, j: nat)
    requires Filled(a, r, value) && Filled(b, r, value) && r.offset <= j < r.offset + r.size / 8
    ensures a[j] == b[j]
  {
    hide Bytes;
    assert a[j] == a[r.offset..r.offset + r.size / 8][j - r.offset];
    assert b[j] == b[r.offset..r.offset + r.size / 8][j - r.offset];
  }

  lemma RemovableMeans(lib: Library, e: Emission)
    requires RelocationsOk(lib, e)
    ensures EndsInNoOp(lib, e) <==> exists i :: 0 <= i < |e.relocs| && Removable(lib, e, i)
  {
    hide FateOf, RelocationsOk, Closed, ClosedBytes, LastJump, IsLastNext, LastDeferred, EndsWith;
    OkIds(lib, e);
    if EndsInNoOp(lib, e) {
      var i, bytes :| 0 <= i < |e.relocs| && LastJump(lib, e, i) && e.start + e.relocs[i].offset > 0
                      && ClosedBytes(lib, e, i, bytes) && EndsWith(bytes, lib.empty);
      ClosedOnly(lib, e, i, bytes);
      LastJumpMeans(lib, e, i);
      assert Removable(lib, e, i);
    }
    if i :| 0 <= i < |e.relocs| && Removable(lib, e, i) {
      ClosedIs(lib, e, i);
      LastJumpMeans(lib, e, i);
      assert ClosedBytes(lib, e, i, Closed(lib, e, i)) && LastJump(lib, e, i);
    }
  }

  /** A stencil of a linked block ends after all its bytes, except that a jump to the next stencil is removed exactly if
      the stencil ends with it, it does nothing, and no later field waits for an address; then the others all end
      before it. */
  lemma EndsRight(lib: Library, log: seq<Emission>, size: nat, image: seq<Byte>, p: Plan, site: Site, k: nat)
    requires AllWellFormed(lib, log) && Linked(lib, log, size, image, p, site) && k < |log|
    ensures EndOf(log, size, k)
      == log[k].start + |log[k].bytes| - if EndsInNoOp(lib, log[k]) then |lib.empty| else 0
    ensures k == 0 ==> log[k].start == 0
  {
    hide FateOf, FieldLinked, TrampolineLinked, TrampolineSupplied, TailOk, InField, PoolLinked, EndsInNoOp, Removable,
         RelocationsOk;
    assert StencilLinked(lib, image, log[k], EndOf(log, size, k), p, site);
    RemovableMeans(lib, log[k]);
  }

  // ----- the pool and the trampolines -----

  /** The pool starts at the first multiple of eight behind code and trampolines, and has eight bytes for each value;
      the block ends with it. */
  lemma PoolRight(p: Plan)
    ensures var (code, values) := (p.codeLen + |p.symbols| * |p.trampoline|, |p.constants| + |p.addresses|);
      if values == 0 then p.Len() == code
      else
        && p.PoolBase() % 8 == 0 && code <= p.PoolBase() < code + 8 && p.Len() == p.PoolBase() + 8 * values
        && forall c :: 0 <= c < values ==> p.SlotAt(c) == p.PoolBase() + 8 * c
  {
  }

  /** The narrow or the wide long jump, whichever takes every address. */
  ghost predicate LongJumpCode(lib: Library, code: seq<Byte>, relocs: seq<Relocation>) {
    && |lib.longJump.stencils| == 2 && lib.longJump.stencils[0].relocationIndex <= |lib.longJump.relocationData|
    && var narrow := ListAt(lib.longJump.relocationData, lib.longJump.stencils[0].relocationIndex);
       var refuses := exists i :: 0 <= i < |narrow| && narrow[i].kind == Hole
                                  && !narrow[i].SupportsValue(0xFFFF_FFFF_FFFF_FFFF);
       var s := lib.longJump.stencils[if refuses then 1 else 0];
       && 0 < s.codeLen && s.codeIndex + s.codeLen <= |lib.code| && s.relocationIndex <= |lib.longJump.relocationData|
       && code == lib.code[s.codeIndex..s.codeIndex + s.codeLen]
       && relocs == ListAt(lib.longJump.relocationData, s.relocationIndex)
  }

  /** Trampolines are made from the wide long jump exactly if a hole of the narrow one refuses the largest word. */
  lemma LongJumpRight(lib: Library, code: seq<Byte>, relocs: seq<Relocation>)
    requires IsLongJump(lib, code, relocs)
    ensures LongJumpCode(lib, code, relocs)
  {
    hide ListAt, Relocation.SupportsValue;
    var f := lib.longJump;
    assert TableIndex([], [], f.maxRegs, false) == 0 by {
      NoOperands(f.maxRegs);
    }
    OneEntry(f.maxRegs);
    var narrow := ListAt(f.relocationData, f.stencils[0].relocationIndex);
    assert HolesFit(narrow, [WORD - 1]) <==>
      !exists i :: 0 <= i < |narrow| && narrow[i].kind == Hole && !narrow[i].SupportsValue(0xFFFF_FFFF_FFFF_FFFF);
  }

  lemma NoOperands(maxRegs: nat)
    ensures TableIndex([], [], maxRegs, false) == 0
  {
    var none: seq<Location> := [];
    assert none + none == none;
  }

  lemma OneEntry(maxRegs: nat)
    ensures StencilsLen(0, 0, maxRegs) == 1
  {
  }

  /** Trampoline `t` of a linked block is a copy of that long jump, behind the code and the trampolines before it, with
      hole 0 referring to eight bytes that hold the address of symbol `t`. */
  lemma TrampolinesRight(lib: Library, log: seq<Emission>, size: nat, image: seq<Byte>, p: Plan, site: Site, t: nat)
    requires AllWellFormed(lib, log) && Linked(lib, log, size, image, p, site) && t < |p.symbols|
    ensures p.symbols[t] < |lib.rtSymbols| && LongJumpCode(lib, p.trampoline, p.trampolineRelocs)
    ensures p.TrampolineAt(t) == p.codeLen + t * |p.trampoline|
    ensures p.TrampolineAt(t) + |p.trampoline| <= |image|
    ensures exists at: nat :: WordAt(image, at, lib.rtSymbols[p.symbols[t]]) && HolesRefer(image, p, t, at, site)
    ensures forall j | 0 <= j < |p.trampoline| && !(exists i :: 0 <= i < |p.trampolineRelocs| && HoleZeroAt(p, i, j)) ::
      image[p.TrampolineAt(t) + j] == p.trampoline[j]
  {
    hide StencilLinked, PoolLinked, Formula, Bytes, Decode, WordAt, Holds, LongJumpTable, LongJump, ListAt,
         LongJumpCode;
    assert TrampolineLinked(lib, image, t, p, site) && TrampolineSupplied(lib, image, t, p);
    LongJumpRight(lib, p.trampoline, p.trampolineRelocs);
    TrampolineSlot(lib, image, p, t);
    TrampolineHoles(lib, image, p, t, site);
  }

  /** Each hole 0 of trampoline `t` refers to the bytes at `at`. */
  ghost predicate HolesRefer(image: seq<Byte>, p: Plan, t: nat, at: nat, site: Site) {
    forall i :: 0 <= i < |p.trampolineRelocs| && p.trampolineRelocs[i].kind == Hole && p.trampolineRelocs[i].id == 0 ==>
      Refers(image, p.trampolineRelocs[i], p.TrampolineAt(t) + p.trampolineRelocs[i].offset, site.BlockBase() + at,
             site.BlockBase())
  }

  lemma TrampolineSlot(lib: Library, image: seq<Byte>, p: Plan, t: nat)
    requires p.Ok() && t < |p.symbols| && TrampolineSupplied(lib, image, t, p)
    ensures WordAt(image, p.SlotAt(|p.constants| + t), lib.rtSymbols[p.symbols[t]])
  {
    hide IsLongJump, Bytes, Decode, Plan.TrampolineAt;
    WordBytes(lib.rtSymbols[p.symbols[t]]);
    SlotAligned(p, |p.constants| + t);
  }

  lemma SlotAligned(p: Plan, c: nat)
    requires c < |p.Values()|
    ensures p.SlotAt(c) % 8 == 0
  {
  }

  lemma TrampolineHoles(lib: Library, image: seq<Byte>, p: Plan, t: nat, site: Site)
    requires t < |p.symbols| && TrampolineLinked(lib, image, t, p, site)
    ensures HolesRefer(image, p, t, p.SlotAt(|p.constants| + t), site)
  {
    hide Formula, Bytes, Refers, Holds, Plan.SlotAt, Plan.TrampolineAt;
    forall i | 0 <= i < |p.trampolineRelocs| && p.trampolineRelocs[i].kind == Hole && p.trampolineRelocs[i].id == 0
      ensures Refers(image, p.trampolineRelocs[i], p.TrampolineAt(t) + p.trampolineRelocs[i].offset,
                     site.BlockBase() + p.SlotAt(|p.constants| + t), site.BlockBase())
    {
      assert IsHoleZero(p.trampolineRelocs[i]);
      HoldsRefers(image, p.trampolineRelocs[i], p.TrampolineAt(t) + p.trampolineRelocs[i].offset,
                  site.BlockBase() + p.SlotAt(|p.constants| + t), site.BlockBase());
    }
  }
}
