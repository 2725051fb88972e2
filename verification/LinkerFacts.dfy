/** What the contents of linked fields mean for the code that reads them. */
module LinkerFacts {
  import opened Wrappers
  import opened Words
  import opened Buffers
  import opened Locations
  import opened Relocations
  import opened Stencils
  import opened Emissions
  import opened PatchBlocks
  import opened PatchLogs
  import opened Layouts
  import opened LinkedBlocks

  /** The distance that a signed field of so many bits can hold. */
  predicate WithinReach(distance: int, bits: nat)
    requires bits > 0
  {
    -(Pow2(bits - 1) as int) <= distance < Pow2(bits - 1)
  }

  /** Reading a relative field back: place and signed field give the target exactly if the field can hold the
      distance. */
  lemma FieldLands(r: Relocation, symbol: nat, place: nat)
    requires r.FieldOk() && r.relative
    ensures var field := Bytes(Formula(r, symbol, place), r.Width());
      place + SignExtend(Decode(field), r.size) == symbol + r.addend <==> WithinReach(symbol + r.addend - place, r.size)
  {
    hide Pow2, Formula, SignExtend, WithinReach;
    var distance := symbol + r.addend - place;
    FormulaRelative(r, symbol, place);
    assert 8 * r.Width() == r.size;
    DecodeBytes(Wrap(distance), r.Width());
    LowAgain(Wrap(distance), r.size);
    ExtendsBack(distance, r.size);
  }

  lemma ExtendsBack(distance: int, bits: nat)
    requires 0 < bits <= WORD_BITS
    ensures SignExtend(Wrap(distance), bits) == distance <==> WithinReach(distance, bits)
  {
    hide Pow2, SignExtend;
    ExtendedWithin(Wrap(distance), bits);
    if WithinReach(distance, bits) {
      Pow2Word();
      Pow2Grows(bits - 1, 63);
      PowDouble(63);
      SignExtendIs(distance, bits);
    }
  }

  /** A signed field never holds more. */
  lemma ExtendedWithin(w: nat, bits: nat)
    requires bits > 0
    ensures WithinReach(SignExtend(w, bits), bits)
  {
    hide Pow2;
    PowDouble(bits - 1);
  }

  lemma PowDouble(n: nat)
    ensures Pow2(n + 1) == 2 * Pow2(n)
  {
  }

  lemma FormulaRelative(r: Relocation, symbol: nat, place: nat)
    requires r.relative
    ensures Formula(r, symbol, place) == Wrap(symbol + r.addend - place)
  {
  }

  lemma LowAgain(w: nat, bits: nat)
    requires bits > 0
    ensures SignExtend(w % Pow2(bits), bits) == SignExtend(w, bits)
  {
    hide Pow2;
    LowTwice(w, Pow2(bits));
  }

  /** Control flow into the following stencil: in a linked block, a jump to the next stencil either
      goes, as a signed distance from its place, to the first byte of the following stencil, exactly if its field
      can hold the distance; or it has been removed, because the stencil ended with it and it did nothing. */
  lemma NextJumpLands(lib: Library, log: seq<Emission>, size: nat, image: seq<Byte>, p: Plan, site: Site, k: nat,
                      i: nat)
    requires AllWellFormed(lib, log) && Linked(lib, log, size, image, p, site)
    requires k + 1 < |log| && i < |log[k].relocs| && IdsOk(lib, log[k]) && IsNext(lib, log[k], i)
    ensures var (e, r, next, place) := (log[k], log[k].relocs[i], log[k + 1].start,
        log[k].start + log[k].relocs[i].offset);
      if next <= place then
        next + |lib.empty| == e.start + |e.bytes| && CutOff(lib, e, i, next)
      else
        && place + r.Width() <= |image| && r.size > 0
        && (site.BlockBase() + place + SignExtend(Decode(image[place..place + r.Width()]), r.size)
              == site.BlockBase() + next + r.addend
            <==> WithinReach(next + r.addend - place, r.size))
  {
    hide Bytes, Pow2, SignExtend, Formula, Decode, WithinReach, Linked, AllWellFormed, IdsOk, FateOf, CutOff,
         Relocation.FieldOk, RelocationsOk;
    var (r, next, place) := (log[k].relocs[i], log[k + 1].start, log[k].start + log[k].relocs[i].offset);
    NextField(lib, log, size, image, p, site, k, i);
    if next > place {
      FieldLands(r, site.BlockBase() + next, site.BlockBase() + place);
    }
  }

  /** What the field of a jump to the next stencil holds, or that it has been removed. */
  lemma NextField(lib: Library, log: seq<Emission>, size: nat, image: seq<Byte>, p: Plan, site: Site, k: nat, i: nat)
    requires AllWellFormed(lib, log) && Linked(lib, log, size, image, p, site)
    requires k + 1 < |log| && i < |log[k].relocs| && IdsOk(lib, log[k]) && IsNext(lib, log[k], i)
    ensures RelocationsOk(lib, log[k])
    ensures var (e, r, next, place) := (log[k], log[k].relocs[i], log[k + 1].start,
        log[k].start + log[k].relocs[i].offset);
      && r.FieldOk() && r.size > 0 && r.relative
      && if next <= place then next + |lib.empty| == e.start + |e.bytes| && CutOff(lib, e, i, next)
         else
           && place + r.Width() <= |image|
           && image[place..place + r.Width()]
              == Bytes(Formula(r, site.BlockBase() + next, site.BlockBase() + place), r.Width())
  {
    hide FateOf, Bytes, TrampolineLinked, TrampolineSupplied, PoolLinked, Formula, IdOk, InField, TailOk, EndOk, CutOff,
         Plan.Ok, Plan.Len, FieldLinked, IdsOk, RelocationsOk, Relocation.FieldOk;
    var (e, next, place) := (log[k], log[k + 1].start, log[k].start + log[k].relocs[i].offset);
    assert StencilLinked(lib, image, e, next, p, site);
    assert FieldLinked(lib, image, e, next, i, p, site);
    RelocSizes(lib, e, i);
    FieldSize(e.relocs[i]);
    NextRelative(lib, e, i);
    if next <= place {
      OnlyThatJump(lib, e, i, next);
    } else {
      NextFieldHolds(lib, image, e, next, i, p, site);
    }
  }

  lemma FieldSize(r: Relocation)
    requires r.FieldOk()
    ensures r.size > 0
  {
  }

  lemma NextRelative(lib: Library, e: Emission, i: nat)
    requires RelocationsOk(lib, e) && i < |e.relocs| && IsNext(lib, e, i)
    ensures e.relocs[i].relative
  {
    hide FateOf;
  }

  lemma NextFieldHolds(lib: Library, image: seq<Byte>, e: Emission, end: nat, i: nat, p: Plan, site: Site)
    requires i < |e.relocs| && IdsOk(lib, e) && IsNext(lib, e, i) && FieldLinked(lib, image, e, end, i, p, site)
    requires end > e.start + e.relocs[i].offset
    ensures var (r, place) := (e.relocs[i], e.start + e.relocs[i].offset);
      && place + r.Width() <= |image|
      && image[place..place + r.Width()]
         == Bytes(Formula(r, site.BlockBase() + end, site.BlockBase() + place), r.Width())
  {
    hide Bytes, Formula, IdOk;
  }

  /** Control flow into another block: in a linked block, a jump to block `b` goes to the first byte of that block,
      exactly if its field can hold the distance or, if it is absolute, the address. */
  lemma BlockJumpLands(lib: Library, log: seq<Emission>, size: nat, image: seq<Byte>, p: Plan, site: Site, k: nat,
                       i: nat, b: nat)
    requires AllWellFormed(lib, log) && Linked(lib, log, size, image, p, site)
    requires k < |log| && i < |log[k].relocs| && IdsOk(lib, log[k]) && FateOf(lib, log[k], i) == Later(Block(b))
    ensures var (r, place) := (log[k].relocs[i], log[k].start + log[k].relocs[i].offset);
      && b < |site.offsets| && place + r.Width() <= |image| && r.size > 0
      && var (low, to) := (Decode(image[place..place + r.Width()]), site.base + site.offsets[b] + r.addend);
         if r.relative then
           site.BlockBase() + place + SignExtend(low, r.size) == to
           <==> WithinReach(to - (site.BlockBase() + place), r.size)
         else
           ZeroExtend(low, r.size) == to <==> 0 <= to < Pow2(r.size)
  {
    hide Bytes, Pow2, SignExtend, ZeroExtend, Formula, Decode, WithinReach, Linked, AllWellFormed, IdsOk, FateOf,
         Relocation.FieldOk;
    var (r, place) := (log[k].relocs[i], log[k].start + log[k].relocs[i].offset);
    BlockField(lib, log, size, image, p, site, k, i, b);
    if r.relative {
      FieldLands(r, site.base + site.offsets[b], site.BlockBase() + place);
    } else {
      AbsoluteLands(r, site.base + site.offsets[b], site.BlockBase() + place);
    }
  }

  /** What the field of a jump to a block holds. */
  lemma BlockField(lib: Library, log: seq<Emission>, size: nat, image: seq<Byte>, p: Plan, site: Site, k: nat, i: nat,
                   b: nat)
    requires AllWellFormed(lib, log) && Linked(lib, log, size, image, p, site)
    requires k < |log| && i < |log[k].relocs| && IdsOk(lib, log[k]) && FateOf(lib, log[k], i) == Later(Block(b))
    ensures var (r, place) := (log[k].relocs[i], log[k].start + log[k].relocs[i].offset);
      && r.FieldOk() && r.size > 0 && b < |site.offsets| && place + r.Width() <= |image|
      && image[place..place + r.Width()]
         == Bytes(Formula(r, site.base + site.offsets[b], site.BlockBase() + place), r.Width())
  {
    hide FateOf, Bytes, TrampolineLinked, TrampolineSupplied, PoolLinked, Formula, IdOk, InField, TailOk, EndOk,
         Plan.Ok, Plan.Len, FieldLinked, IdsOk, RelocationsOk, Relocation.FieldOk;
    var e := log[k];
    assert StencilLinked(lib, image, e, EndOf(log, size, k), p, site);
    assert FieldLinked(lib, image, e, EndOf(log, size, k), i, p, site);
    RelocSizes(lib, e, i);
    FieldSize(e.relocs[i]);
    BlockFieldHolds(lib, image, e, EndOf(log, size, k), i, p, site, b);
  }

  lemma BlockFieldHolds(lib: Library, image: seq<Byte>, e: Emission, end: nat, i: nat, p: Plan, site: Site, b: nat)
    requires i < |e.relocs| && IdsOk(lib, e) && FateOf(lib, e, i) == Later(Block(b))
    requires FieldLinked(lib, image, e, end, i, p, site)
    ensures var (r, place) := (e.relocs[i], e.start + e.relocs[i].offset);
      && b < |site.offsets| && place + r.Width() <= |image|
      && image[place..place + r.Width()]
         == Bytes(Formula(r, site.base + site.offsets[b], site.BlockBase() + place), r.Width())
  {
    hide Bytes, Formula, IdOk;
  }

  lemma AbsoluteLands(r: Relocation, symbol: nat, place: nat)
    requires r.FieldOk() && !r.relative
    ensures var field := Bytes(Formula(r, symbol, place), r.Width());
      ZeroExtend(Decode(field), r.size) == symbol + r.addend <==> 0 <= symbol + r.addend < Pow2(r.size)
  {
    hide Pow2, ZeroExtend;
    var to := symbol + r.addend;
    assert 8 * r.Width() == r.size;
    DecodeBytes(Wrap(to), r.Width());
    ZeroExtendsBack(to, r.size);
  }

  lemma ZeroExtendsBack(to: int, bits: nat)
    requires 0 < bits <= WORD_BITS
    ensures ZeroExtend(Wrap(to) % Pow2(bits), bits) == to <==> 0 <= to < Pow2(bits)
  {
    hide Pow2;
    Pow2Word();
    Pow2Grows(bits, WORD_BITS);
    var (m, low) := (Pow2(bits), Wrap(to) % Pow2(bits));
    SmallMod(low, m);
    if 0 <= to < m {
      SmallMod(to, m);
      SmallMod(to, WORD);
    }
  }

  lemma SmallMod(x: nat, m: nat)
    requires x < m
    ensures x % m == x
  {
  }

  /** The bounds of the records in the original: 16 bits for the length of the code of a stencil,
      12 bits for an addend. */
  predicate RecordBounds(e: Emission) {
    && |e.bytes| < 0x1_0000
    && forall i :: 0 <= i < |e.relocs| ==> -2048 <= e.relocs[i].addend < 2048
  }

  /** Within these bounds, a jump field of more than 16 bits always reaches the following stencil. */
  lemma WideJumpLands(lib: Library, log: seq<Emission>, size: nat, image: seq<Byte>, p: Plan, site: Site, k: nat,
      i: nat)
    requires AllWellFormed(lib, log) && Linked(lib, log, size, image, p, site)
    requires k + 1 < |log| && i < |log[k].relocs| && IdsOk(lib, log[k]) && IsNext(lib, log[k], i)
    requires RecordBounds(log[k]) && log[k].relocs[i].size > 16
    ensures var (e, r, next, place) := (log[k], log[k].relocs[i], log[k + 1].start,
        log[k].start + log[k].relocs[i].offset);
      if next <= place then
        next + |lib.empty| == e.start + |e.bytes| && CutOff(lib, e, i, next)
      else
        && place + r.Width() <= |image|
        && site.BlockBase() + place + SignExtend(Decode(image[place..place + r.Width()]), r.size)
          == site.BlockBase() + next + r.addend
  {
    hide FateOf, Pow2, SignExtend, Decode, Linked, AllWellFormed, IdsOk, CutOff, WithinReach, RelocationsOk,
         Relocation.FieldOk;
    var r := log[k].relocs[i];
    NextWithin(lib, log, size, image, p, site, k, i);
    NextJumpLands(lib, log, size, image, p, site, k, i);
    if log[k + 1].start > log[k].start + r.offset {
      WideReach(log[k + 1].start + r.addend - (log[k].start + r.offset), r.size);
    }
  }

  lemma NextWithin(lib: Library, log: seq<Emission>, size: nat, image: seq<Byte>, p: Plan, site: Site, k: nat, i: nat)
    requires AllWellFormed(lib, log) && Linked(lib, log, size, image, p, site) && k + 1 < |log| && i < |log[k].relocs|
    ensures log[k].start <= log[k + 1].start <= log[k].start + |log[k].bytes|
    ensures log[k].relocs[i].End() <= |log[k].bytes| && log[k].relocs[i].size % 8 == 0
  {
    hide FateOf, TrampolineLinked, TrampolineSupplied, PoolLinked, IdOk, InField, TailOk, FieldLinked, EndOk, Plan.Ok,
         Plan.Len;
    assert StencilLinked(lib, image, log[k], log[k + 1].start, p, site);
    RelocSizes(lib, log[k], i);
  }

  lemma WideReach(distance: int, bits: nat)
    requires 16 < bits && bits % 8 == 0 && -0x1_0800 < distance < 0x1_0800
    ensures WithinReach(distance, bits)
  {
    hide Pow2;
    Pow2Word();
    Pow2Sum(16, 7);
    Pow2Sum(8, 8);
    HalfByte();
    Pow2Grows(23, bits - 1);
  }

  lemma HalfByte()
    ensures Pow2(7) == 128
  {
    assert Pow2(3) == 8;
  }

  lemma OnlyThatJump(lib: Library, e: Emission, i: nat, end: nat)
    requires WellFormed(lib, e) && EndOk(lib, e, end) && end < e.start + |e.bytes|
    requires i < |e.relocs| && end <= e.start + e.relocs[i].offset
    ensures end + |lib.empty| == e.start + |e.bytes| && CutOff(lib, e, i, end)
  {
    hide Closed, FateOf, EndsWith;
    var l :| 0 <= l < |e.relocs| && CutOff(lib, e, l, end);
    RelocSizes(lib, e, i);
    OthersBefore(lib, e, l, end);
  }

  lemma OthersBefore(lib: Library, e: Emission, l: nat, end: nat)
    requires WellFormed(lib, e) && l < |e.relocs| && CutOff(lib, e, l, end)
    ensures forall k :: 0 <= k < |e.relocs| && k != l ==> e.relocs[k].End() <= |e.bytes| - |lib.empty|
  {
  }

  /** Narrow selection is lossless: each hole field of the selected stencil gives back the whole value of
      its hole, by zero or sign extension according to its encoding. */
  lemma NarrowIsLossless(f: Family, inputs: seq<Location>, outputs: seq<Location>, holes: seq<Word>, s: Stencil, i: nat)
    requires f.maxRegs > 0 && TableIndex(inputs, outputs, f.maxRegs, false) < |f.stencils|
    requires f.stencils[TableIndex(inputs, outputs, f.maxRegs, false)].relocationIndex <= |f.relocationData|
    requires Selection(f, inputs, outputs, holes) == Some(Selected(false, s))
    requires s.relocationIndex <= |f.relocationData| && i < |ListAt(f.relocationData, s.relocationIndex)|
    requires var r := ListAt(f.relocationData, s.relocationIndex)[i];
      r.kind == Hole && r.id < |holes| && r.FieldOk() && r.addend == 0
    ensures var r := ListAt(f.relocationData, s.relocationIndex)[i];
      && !r.relative
      && if r.encoding.Generic? then ZeroExtend(Decode(FieldBytes(r, holes[r.id])), r.size) == holes[r.id]
         else SignExtend(Decode(FieldBytes(r, holes[r.id])), r.size) == Signed(holes[r.id])
  {
    hide ListAt, TableIndex, ZeroExtend, SignExtend, FieldBytes, Decode, FitsSigned, FitsUnsigned, Signed;
    var r := ListAt(f.relocationData, s.relocationIndex)[i];
    assert r.SupportsValue(holes[r.id]);
    SupportsExactly(r, holes[r.id]);
  }

  /** The hole field gives back the whole value of its hole. */
  predicate GivesBack(r: Relocation, value: Word)
    requires r.FieldOk()
  {
    !r.relative &&
    if r.encoding.Generic? then ZeroExtend(Decode(FieldBytes(r, value)), r.size) == value
    else SignExtend(Decode(FieldBytes(r, value)), r.size) == Signed(value)
  }

  /** What a family supplies: fields of whole bytes, without addends for holes. */
  ghost predicate HolesPlain(list: seq<Relocation>) {
    forall k :: 0 <= k < |list| && list[k].kind == Hole ==> list[k].FieldOk() && list[k].addend == 0
  }

  /** Some hole field does not give back its hole. */
  ghost predicate LosesBits(list: seq<Relocation>, holes: seq<Word>)
    requires HolesPlain(list)
  {
    exists k ::
      0 <= k < |list| && list[k].kind == Hole && list[k].id < |holes| && !GivesBack(list[k], holes[list[k].id])
  }

  lemma SupportedGivesBack(r: Relocation, value: Word)
    requires r.FieldOk() && r.addend == 0
    ensures r.SupportsValue(value) <==> GivesBack(r, value)
  {
    hide ZeroExtend, SignExtend, FieldBytes, Decode, FitsSigned, FitsUnsigned, Signed;
    if !r.relative {
      SupportsExactly(r, value);
    }
  }

  /** The narrow stencil is selected exactly if each of its hole fields gives back its hole, and otherwise the wide one
      of the same operands; none exactly if that one is missing. */
  lemma WidthExactly(f: Family, inputs: seq<Location>, outputs: seq<Location>, holes: seq<Word>)
    requires FamilyOk(f) && |inputs| == f.ins && |outputs| == f.outs && |holes| == f.holes
    requires Encodable(inputs + outputs, f.maxRegs) && TableIndex(inputs, outputs, f.maxRegs, false) < |f.stencils|
    requires var narrow := f.stencils[TableIndex(inputs, outputs, f.maxRegs, false)];
      narrow.relocationIndex <= |f.relocationData| && HolesPlain(ListAt(f.relocationData, narrow.relocationIndex))
    ensures var list := ListAt(f.relocationData,
                               f.stencils[TableIndex(inputs, outputs, f.maxRegs, false)].relocationIndex);
      var wide := LosesBits(list, holes);
      && TableIndex(inputs, outputs, f.maxRegs, wide) < |f.stencils|
      && var entry := f.stencils[TableIndex(inputs, outputs, f.maxRegs, wide)];
      Selection(f, inputs, outputs, holes) == if entry.codeLen == 0 then None else Some(Selected(wide, entry))
  {
    hide ListAt, IoIndex, Relocation.SupportsValue, GivesBack, EntryOk, Power, Encodable;
    EntryFacts(f, inputs, outputs);
    var narrow := f.stencils[TableIndex(inputs, outputs, f.maxRegs, false)];
    var list := ListAt(f.relocationData, narrow.relocationIndex);
    forall k | 0 <= k < |list| && list[k].kind == Hole && list[k].id < |holes|
      ensures list[k].SupportsValue(holes[list[k].id]) <==> GivesBack(list[k], holes[list[k].id])
    {
      SupportedGivesBack(list[k], holes[list[k].id]);
    }
    ListFacts(f, narrow);
  }

  /** A field refuses the largest word exactly if it is relative, or zero-extended from less than a word:
      a sign-extended absolute field of any width takes it, as -1. */
  lemma RejectsLargest(r: Relocation)
    requires r.FieldOk()
    ensures !r.SupportsValue(WORD - 1) <==> r.relative || (r.encoding.Generic? && r.size < WORD_BITS)
  {
    if r.encoding.Generic? && r.size < WORD_BITS {
      Pow2Word();
      Pow2Grows(r.size, 63);
      PowDouble(63);
    }
    if r.encoding.X86Signed? && r.size < WORD_BITS {
      FitsSignedIsRange(-1, r.size);
    }
  }

  /** Trampolines use the wide long jump exactly if the narrow one has a hole that refuses the largest word. */
  lemma LongJumpIsWide(lib: Library)
    requires LongJumpTable(lib)
    requires var narrow := lib.longJump.stencils[TableIndex([], [], lib.longJump.maxRegs, false)];
      forall i :: 0 <= i < |ListAt(lib.longJump.relocationData, narrow.relocationIndex)| ==>
        ListAt(lib.longJump.relocationData, narrow.relocationIndex)[i].FieldOk()
    ensures var narrow := lib.longJump.stencils[TableIndex([], [], lib.longJump.maxRegs, false)];
      match Selection(lib.longJump, [], [], [WORD - 1])
      case None => true
      case Some(s) => s.wide <==> SomeRefuses(ListAt(lib.longJump.relocationData, narrow.relocationIndex))
  {
    hide ListAt, TableIndex, FamilyOk;
    var narrow := lib.longJump.stencils[TableIndex([], [], lib.longJump.maxRegs, false)];
    var list := ListAt(lib.longJump.relocationData, narrow.relocationIndex);
    forall i | 0 <= i < |list|
      ensures list[i].kind == Hole ==> (list[i].SupportsValue(WORD - 1) <==> !RefusesAddress(list[i])) {
      RejectsLargest(list[i]);
    }
    assert forall i :: 0 <= i < |list| && list[i].kind == Hole ==> list[i].id < 1;
  }

  predicate SomeRefuses(list: seq<Relocation>) {
    exists i :: 0 <= i < |list| && RefusesAddress(list[i])
  }

  predicate RefusesAddress(r: Relocation) {
    r.kind == Hole && (r.relative || (r.encoding.Generic? && r.size < WORD_BITS))
  }

  // ----- an example -----

  /** The near jump of x86: an opcode and a relative field of 32 bits, counted from its end. */
  const NEAR_JUMP: seq<Byte> := [0xE9, 0, 0, 0, 0]

  const NEAR_JUMP_FIELD := Relocation(1, X86Signed, true, 32, -4, PatchKind.Target, 0)

  function NearJump(start: nat, target: JumpTarget): Emission {
    Emission(start, NEAR_JUMP, [NEAR_JUMP_FIELD], Args([], [], [], [target], false), 0)
  }

  /** If the empty stencil is a near jump, a stencil that is nothing else is well-formed, and a jump to the next stencil
      is a no-op that may be cut off as a whole. */
  lemma NearJumpIsNoOp(lib: Library, start: nat, target: JumpTarget)
    requires lib.empty == NEAR_JUMP
    ensures WellFormed(lib, NearJump(start, target))
    ensures target.NextStencil? ==> CutOff(lib, NearJump(start, target), 0, start)
  {
    hide FateOf, Patched, FieldBytes, Bytes, Written, IdOk, Relocation.FieldOk;
    NearJumpOk(lib, start, target);
    NearJumpClosed(lib, start, target);
    assert NEAR_JUMP[0..] == NEAR_JUMP;
  }

  lemma NearJumpOk(lib: Library, start: nat, target: JumpTarget)
    ensures var e := NearJump(start, target);
      && RelocationsOk(lib, e) && IdsOk(lib, e)
      && FateOf(lib, e, 0) == Later(if target.NextStencil? then AfterStencil else Block(target.block))
  {
    var e := NearJump(start, target);
    assert IdOk(lib, e, 0);
    assert NEAR_JUMP_FIELD.FieldOk() && NEAR_JUMP_FIELD.End() == 5;
  }

  /** Patched to go to its end, the field is zero. */
  lemma NearJumpClosed(lib: Library, start: nat, target: JumpTarget)
    requires RelocationsOk(lib, NearJump(start, target)) && IdsOk(lib, NearJump(start, target))
    ensures Closed(lib, NearJump(start, target), 0) == NEAR_JUMP
  {
    var e := NearJump(start, target);
    NearJumpOk(lib, start, target);
    hide FateOf, Patched, RelocationsOk, Bytes, IdOk;
    PatchedStep(lib, e, 0);
    NothingPatched(lib, e);
    assert Wrap(Wrap(4) + -4) == 0;
    FourZeros();
    assert FieldBytes(NEAR_JUMP_FIELD, Wrap(4)) == [0, 0, 0, 0];
  }

  lemma FourZeros()
    ensures Bytes(0, 4) == [0, 0, 0, 0]
  {
    assert Bytes(0, 1) == [0] + Bytes(0, 0);
    assert Bytes(0, 2) == [0] + Bytes(0, 1);
    assert Bytes(0, 3) == [0] + Bytes(0, 2);
  }
}
