/** Blocks of patched stencils (`src/patch.rs`): emission, with pruning of jumps to the next stencil. */
module PatchBlocks {
  import opened Words
  import opened Buffers
  import opened Relocations
  import opened Emissions

  // ----- the end of a stencil becomes known -----

  predicate EndsWith(code: seq<Byte>, tail: seq<Byte>) {
    |tail| <= |code| && code[|code| - |tail|..] == tail
  }

  /** The writes of jumps to `target`. */
  function NextWrites(pending: seq<Delayed>, target: nat): (r: seq<Write>)
    ensures |r| == |pending|
    ensures forall k :: 0 <= k < |r| ==>
      r[k] == Write(pending[k].Location(), FieldBytes(pending[k].relocation, pending[k].Resolve(0, target)))
  {
    seq(|pending|, k requires 0 <= k < |pending| =>
      Write(pending[k].Location(), FieldBytes(pending[k].relocation, pending[k].Resolve(0, target))))
  }

  /** The code after its last pending jump has been patched to go to the end of the code, and the jump has been
      removed if it is a no-op at the very end, past all deferred relocations (`lastDeferred`). */
  function Pruned(code: seq<Byte>, pending: seq<Delayed>, lastDeferred: nat, empty: seq<Byte>): (r: seq<Byte>)
    requires pending != [] ==> pending[|pending| - 1].End() <= |code|
    ensures |r| <= |code|
  {
    if pending == [] then code
    else
      var last := pending[|pending| - 1];
      var patched := Written(code, last.Location(), FieldBytes(last.relocation, last.Resolve(0, |code|)));
      if EndsWith(patched, empty) && last.Location() > lastDeferred then patched[..|code| - |empty|] else patched
  }

  /** All pending jumps lie in the code, also when it has been pruned. */
  predicate SettleOk(code: seq<Byte>, pending: seq<Delayed>, lastDeferred: nat, empty: seq<Byte>) {
    pending != [] ==>
      && pending[|pending| - 1].End() <= |code|
      && var pruned := Pruned(code, pending, lastDeferred, empty);
         AllFit(NextWrites(pending[..|pending| - 1], |pruned|), |pruned|)
  }

  /** The code when the next stencil is about to be emitted: every pending jump goes to its end. */
  function Settled(code: seq<Byte>, pending: seq<Delayed>, lastDeferred: nat, empty: seq<Byte>): seq<Byte>
    requires SettleOk(code, pending, lastDeferred, empty)
  {
    var pruned := Pruned(code, pending, lastDeferred, empty);
    if pending == [] then pruned else WriteAll(pruned, NextWrites(pending[..|pending| - 1], |pruned|))
  }

  // ----- what stencils satisfy, continued -----

  /** The bytes of the stencil, with jump `i` patched to go to their end. */
  function Closed(lib: Library, e: Emission, i: nat): seq<Byte>
    requires RelocationsOk(lib, e) && i < |e.relocs|
  {
    var r := e.relocs[i];
    assert r.End() <= |e.bytes|;
    Written(Patched(lib, e, |e.relocs|), r.offset, FieldBytes(r, Wrap(|e.bytes| - r.offset)))
  }

  /** If the patched code of a stencil ends with the no-op jump, and no other deferred relocation comes
      after its last jump to the next stencil, then that jump is what the end consists of. */
  ghost predicate TailOk(lib: Library, e: Emission)
    requires RelocationsOk(lib, e)
  {
    forall i :: 0 <= i < |e.relocs| && IsLastNext(lib, e, i) ==>
      && |lib.empty| <= |e.bytes|
      && (EndsWith(Closed(lib, e, i), lib.empty) && |lib.empty| > 0 && LastDeferred(lib, e, i) ==>
            && |e.bytes| - |lib.empty| <= e.relocs[i].offset
            && forall k :: 0 <= k < |e.relocs| && k != i ==> e.relocs[k].End() <= |e.bytes| - |lib.empty|)
  }

  ghost predicate IsLastNext(lib: Library, e: Emission, i: nat)
    requires i < |e.relocs| && IdsOk(lib, e)
  {
    IsNext(lib, e, i) && forall k :: i < k < |e.relocs| ==> !IsNext(lib, e, k)
  }

  /** No relocation after `i` is deferred. */
  ghost predicate LastDeferred(lib: Library, e: Emission, i: nat)
    requires i < |e.relocs| && IdsOk(lib, e)
  {
    forall k :: i < k < |e.relocs| ==> FateOf(lib, e, k).Now?
  }

  /** What the code generator of the stencils guarantees of each emitted stencil. */
  ghost predicate WellFormed(lib: Library, e: Emission) {
    RelocationsOk(lib, e) && TailOk(lib, e)
  }

  // ----- finished stencils -----

  /** The field of relocation `i` is in its final state, as far as it does not wait for the addresses of
      the block.  The code of the stencil goes on up to `end`, where the next stencil starts. */
  ghost predicate FieldDone(lib: Library, code: seq<Byte>, e: Emission, end: nat, i: nat)
    requires i < |e.relocs| && IdsOk(lib, e)
  {
    var (r, place) := (e.relocs[i], e.start + e.relocs[i].offset);
    match FateOf(lib, e, i)
    case Now(v) => e.start + r.End() <= end && Holds(code, place, FieldBytes(r, Wrap(v)))
    case Later(target) =>
      if target.AfterStencil? then
        end <= place || (e.start + r.End() <= end && Holds(code, place, FieldBytes(r, Wrap(end - place))))
      else e.start + r.End() <= end
  }

  /** Jump `i` to the next stencil, not at the very start of the block, is a no-op with which the bytes of the stencil
      end, and no deferred relocation comes after it. */
  ghost predicate Removable(lib: Library, e: Emission, i: nat)
    requires RelocationsOk(lib, e) && i < |e.relocs|
  {
    && IsLastNext(lib, e, i) && LastDeferred(lib, e, i) && |lib.empty| > 0
    && e.start + e.relocs[i].offset > 0 && EndsWith(Closed(lib, e, i), lib.empty)
  }

  /** The code of the stencil ends before that jump. */
  ghost predicate CutOff(lib: Library, e: Emission, i: nat, end: nat)
    requires RelocationsOk(lib, e) && i < |e.relocs|
  {
    Removable(lib, e, i) && end <= e.start + e.relocs[i].offset
  }

  /** The code of the stencil ends before a removable jump, if there is one, and otherwise after all its bytes. */
  ghost predicate EndOk(lib: Library, e: Emission, end: nat)
    requires RelocationsOk(lib, e)
  {
    if exists i :: 0 <= i < |e.relocs| && Removable(lib, e, i) then
      end == e.start + |e.bytes| - |lib.empty| && exists i :: 0 <= i < |e.relocs| && CutOff(lib, e, i, end)
    else end == e.start + |e.bytes|
  }

  ghost predicate Done(lib: Library, code: seq<Byte>, e: Emission, end: nat)
    requires RelocationsOk(lib, e)
  {
    && e.start <= end <= |code| && end <= e.start + |e.bytes| && EndOk(lib, e, end)
    && (forall j :: 0 <= j < end - e.start && !InField(e, j) ==> code[e.start + j] == e.bytes[j])
    && (forall i :: 0 <= i < |e.relocs| ==> FieldDone(lib, code, e, end, i))
  }

  /** The last stencil: copied and patched, but its end is not known yet. */
  ghost predicate Open(lib: Library, code: seq<Byte>, e: Emission)
    requires RelocationsOk(lib, e)
  {
    |code| == e.start + |e.bytes| && code[e.start..] == Patched(lib, e, |e.relocs|)
  }

  function MaxDeferred(ds: seq<Delayed>): nat {
    if ds == [] then 0 else ds[|ds| - 1].Location()
  }

  // ----- settling -----

  lemma RelocSizes(lib: Library, e: Emission, i: nat)
    requires RelocationsOk(lib, e) && i < |e.relocs|
    ensures e.relocs[i].FieldOk() && e.relocs[i].Width() > 0 && e.relocs[i].End() <= |e.bytes|
  {
  }

  /** Writing inside the suffix of a buffer. */
  lemma WrittenSuffix(code: seq<Byte>, start: nat, at: nat, bytes: seq<Byte>)
    requires start <= |code| && start + at + |bytes| <= |code|
    ensures Written(code, start + at, bytes)[start..] == Written(code[start..], at, bytes)
    ensures Written(code, start + at, bytes)[..start] == code[..start]
  {
  }

  /** The last pending jump of a stencil is its last relocation to the next stencil. */
  lemma LastNext(lib: Library, e: Emission) returns (i: nat)
    requires RelocationsOk(lib, e) && Deferred(lib, e, |e.relocs|, true) != []
    ensures i < |e.relocs| && IsLastNext(lib, e, i) && IsNext(lib, e, i)
    ensures var pending := Deferred(lib, e, |e.relocs|, true);
      pending[|pending| - 1] == Delayed(e.start, e.relocs[i], AfterStencil)
  {
    hide FateOf, IdOk;
    var pending := Deferred(lib, e, |e.relocs|, true);
    i := DeferredFrom(lib, e, |e.relocs|, true, |pending| - 1);
    forall j | i < j < |e.relocs| ensures !IsNext(lib, e, j) {
      RelocSizes(lib, e, i);
      assert e.relocs[i].End() <= e.relocs[j].offset;
      if IsNext(lib, e, j) {
        LastIsLast(lib, e, true, j);
      }
    }
  }

  /** No deferred relocation lies behind the last one. */
  lemma LastIsLast(lib: Library, e: Emission, next: bool, j: nat)
    requires RelocationsOk(lib, e) && j < |e.relocs|
    requires FateOf(lib, e, j).Later? && FateOf(lib, e, j).target.AfterStencil? == next
    ensures e.start + e.relocs[j].offset <= MaxDeferred(Deferred(lib, e, |e.relocs|, next))
    ensures Deferred(lib, e, |e.relocs|, next) != []
  {
    hide FateOf, IdOk;
    var ds := Deferred(lib, e, |e.relocs|, next);
    var k := DeferredHas(lib, e, |e.relocs|, next, j);
    DeferredSorted(lib, e, |e.relocs|, next);
    assert k < |ds| - 1 ==> ds[k].End() <= ds[|ds| - 1].Location();
  }

  /** The deferred relocations of earlier stencils lie before the stencil. */
  predicate AllBefore(before: seq<Delayed>, start: nat) {
    before != [] ==> before[|before| - 1].Location() < start
  }

  /** The comparison of locations finds out whether other deferred relocations of the stencil come later; it also
      refuses a jump at the very start of the block. */
  lemma LocationTellsOrder(lib: Library, e: Emission, before: seq<Delayed>, i: nat)
    requires RelocationsOk(lib, e) && i < |e.relocs| && IsLastNext(lib, e, i) && AllBefore(before, e.start)
    ensures e.start + e.relocs[i].offset > MaxDeferred(before + Deferred(lib, e, |e.relocs|, false))
      <==> LastDeferred(lib, e, i) && e.start + e.relocs[i].offset > 0
  {
    hide FateOf, IdOk, RelocationsOk, Deferred;
    OkIds(lib, e);
    var (own, place) := (Deferred(lib, e, |e.relocs|, false), e.start + e.relocs[i].offset);
    assert own == [] ==> before + own == before;
    assert own != [] ==> (before + own)[|before + own| - 1] == own[|own| - 1];
    if place > MaxDeferred(before + own) {
      forall j | i < j < |e.relocs| ensures FateOf(lib, e, j).Now? {
        NoneLater(lib, e, i, j);
      }
    }
    if LastDeferred(lib, e, i) && own != [] {
      DeferredBefore(lib, e, i);
    }
  }

  lemma NoneLater(lib: Library, e: Emission, i: nat, j: nat)
    requires RelocationsOk(lib, e) && i < j < |e.relocs| && IsLastNext(lib, e, i)
    requires var own := Deferred(lib, e, |e.relocs|, false);
      own != [] ==> own[|own| - 1].Location() < e.start + e.relocs[i].offset
    ensures FateOf(lib, e, j).Now?
  {
    hide FateOf, IdOk;
    assert !IsNext(lib, e, j);
    assert e.relocs[i].End() <= e.relocs[j].offset;
    if FateOf(lib, e, j).Later? {
      LastIsLast(lib, e, false, j);
    }
  }

  lemma DeferredBefore(lib: Library, e: Emission, i: nat)
    requires RelocationsOk(lib, e) && i < |e.relocs| && IsLastNext(lib, e, i) && LastDeferred(lib, e, i)
    requires Deferred(lib, e, |e.relocs|, false) != []
    ensures var own := Deferred(lib, e, |e.relocs|, false); own[|own| - 1].Location() < e.start + e.relocs[i].offset
  {
    hide FateOf, IdOk, RelocationsOk, Deferred;
    OkIds(lib, e);
    var own := Deferred(lib, e, |e.relocs|, false);
    var l := DeferredFrom(lib, e, |e.relocs|, false, |own| - 1);
    assert l < i;
    SortedPair(lib, e, l, i);
  }

  /** As `Done`, but only one of the jumps to the next stencil has been dealt with. */
  ghost predicate HalfDone(lib: Library, code: seq<Byte>, e: Emission, end: nat, next: nat)
    requires RelocationsOk(lib, e)
  {
    && e.start <= end <= |code| && end <= e.start + |e.bytes| && EndOk(lib, e, end)
    && (forall j :: 0 <= j < end - e.start && !InField(e, j) ==> code[e.start + j] == e.bytes[j])
    && (forall i :: 0 <= i < |e.relocs| ==>
          if IsNext(lib, e, i) && i != next then e.start + e.relocs[i].End() <= end
          else FieldDone(lib, code, e, end, i))
  }

  /** A field that an open stencil holds already. */
  lemma OpenHolds(lib: Library, code: seq<Byte>, e: Emission, i: nat)
    requires RelocationsOk(lib, e) && Open(lib, code, e) && i < |e.relocs|
    ensures e.start + e.relocs[i].End() <= |code|
    ensures match FateOf(lib, e, i)
      case Now(v) => Holds(code, e.start + e.relocs[i].offset, FieldBytes(e.relocs[i], Wrap(v)))
      case Later(_) => true
  {
    hide FateOf, FieldBytes, Patched;
    RelocSizes(lib, e, i);
    match FateOf(lib, e, i)
    case Later(_) =>
    case Now(v) =>
      PatchedHolds(lib, e, |e.relocs|, i);
      HoldsInSuffix(code, e.start, e.relocs[i].offset, FieldBytes(e.relocs[i], Wrap(v)));
  }

  lemma HoldsInSuffix(code: seq<Byte>, start: nat, at: nat, bytes: seq<Byte>)
    requires start <= |code| && Holds(code[start..], at, bytes)
    ensures Holds(code, start + at, bytes)
  {
    assert code[start + at..start + at + |bytes|] == code[start..][at..at + |bytes|];
  }

  lemma OpenElsewhere(lib: Library, code: seq<Byte>, e: Emission, j: nat)
    requires RelocationsOk(lib, e) && Open(lib, code, e) && j < |e.bytes| && !InField(e, j)
    ensures code[e.start + j] == e.bytes[j]
  {
    PatchedElsewhere(lib, e, |e.relocs|, j);
    assert code[e.start + j] == code[e.start..][j];
  }

  /** An open stencil without jumps to the next one ends where its bytes end. */
  lemma NoNext(lib: Library, code: seq<Byte>, e: Emission)
    requires RelocationsOk(lib, e) && Open(lib, code, e) && Deferred(lib, e, |e.relocs|, true) == []
    ensures HalfDone(lib, code, e, |code|, |e.relocs|)
  {
    hide FateOf, FieldBytes, Patched, InField;
    forall j | 0 <= j < |code| - e.start && !InField(e, j) ensures code[e.start + j] == e.bytes[j] {
      OpenElsewhere(lib, code, e, j);
    }
    forall i | 0 <= i < |e.relocs| ensures !IsNext(lib, e, i) && FieldDone(lib, code, e, |code|, i) {
      OpenHolds(lib, code, e, i);
      if IsNext(lib, e, i) {
        var k := DeferredHas(lib, e, |e.relocs|, true, i);
      }
    }
  }

  ghost predicate CutHere(lib: Library, e: Emission, i: nat, patched: seq<Byte>)
    requires IdsOk(lib, e) && i < |e.relocs|
  {
    |lib.empty| > 0 && EndsWith(patched, lib.empty) && LastDeferred(lib, e, i) && e.start + e.relocs[i].offset > 0
  }

  /** The code with the last jump patched, and the no-op cut off if allowed. */
  ghost predicate PrunedTo(lib: Library, code: seq<Byte>, e: Emission, i: nat, patched: seq<Byte>, end: nat)
    requires WellFormed(lib, e) && i < |e.relocs|
  {
    && |code| == e.start + |e.bytes| && IsLastNext(lib, e, i)
    && e.start + e.relocs[i].End() <= |code|
    && patched == Written(code, e.start + e.relocs[i].offset,
      FieldBytes(e.relocs[i], Wrap(|e.bytes| - e.relocs[i].offset)))
    && end == |code| - if CutHere(lib, e, i, patched) then |lib.empty| else 0
  }

  /** The cut removes at most that jump: all other fields end before. */
  lemma PrunedEnd(lib: Library, code: seq<Byte>, e: Emission, i: nat, patched: seq<Byte>, end: nat)
    requires WellFormed(lib, e) && Open(lib, code, e) && i < |e.relocs| && PrunedTo(lib, code, e, i, patched, end)
    ensures e.start <= end <= |code| && EndOk(lib, e, end) && patched[..e.start] == code[..e.start] && IdsOk(lib, e)
    ensures end < |code| ==> end <= e.start + e.relocs[i].offset
    ensures forall k :: 0 <= k < |e.relocs| && k != i ==> e.start + e.relocs[k].End() <= end
  {
    hide FateOf, FieldBytes, Patched, InField, IdOk;
    var r := e.relocs[i];
    WrittenSuffix(code, e.start, r.offset, FieldBytes(r, Wrap(|e.bytes| - r.offset)));
    assert patched[e.start..] == Closed(lib, e, i);
    SameEnd(patched, e.start, lib.empty);
    assert CutHere(lib, e, i, patched) <==> Removable(lib, e, i);
    OneRemovable(lib, e, i);
    assert end < |code| ==> CutOff(lib, e, i, end);
  }

  /** Only the last jump to the next stencil is removable. */
  lemma OneRemovable(lib: Library, e: Emission, i: nat)
    requires RelocationsOk(lib, e) && i < |e.relocs| && IsLastNext(lib, e, i)
    ensures forall k :: 0 <= k < |e.relocs| && Removable(lib, e, k) ==> k == i
  {
    hide FateOf, FieldBytes, Patched, IdOk, EndsWith, Closed;
    forall k | 0 <= k < |e.relocs| && Removable(lib, e, k) ensures k == i {
      assert IsNext(lib, e, k) && IsNext(lib, e, i);
    }
  }

  /** Patching the last jump, and cutting it off if allowed, finishes all but the other jumps. */
  lemma PrunedHalfDone(lib: Library, code: seq<Byte>, e: Emission, i: nat, patched: seq<Byte>, end: nat)
    requires WellFormed(lib, e) && Open(lib, code, e) && i < |e.relocs| && PrunedTo(lib, code, e, i, patched, end)
    ensures end <= |patched| && HalfDone(lib, patched[..end], e, end, i)
  {
    hide FateOf, FieldBytes, Patched, InField, Open, EndOk, TailOk, FieldDone, EndsWith, IdOk, RelocationsOk,
         IsLastNext, IsNext, LastDeferred;
    PrunedEnd(lib, code, e, i, patched, end);
    forall j | 0 <= j < end - e.start && !InField(e, j) ensures patched[e.start + j] == e.bytes[j] {
      PrunedElsewhere(lib, code, e, i, patched, j);
    }
    forall k | 0 <= k < |e.relocs| && !(IsNext(lib, e, k) && k != i) ensures FieldDone(lib, patched[..end], e, end, k) {
      if k == i {
        PrunedJump(lib, code, e, i, patched, end);
      } else {
        PrunedField(lib, code, e, i, patched, end, k);
      }
    }
  }

  lemma PrunedElsewhere(lib: Library, code: seq<Byte>, e: Emission, i: nat, patched: seq<Byte>, j: nat)
    requires RelocationsOk(lib, e) && Open(lib, code, e) && i < |e.relocs| && j < |e.bytes| && !InField(e, j)
    requires patched == Written(code, e.start + e.relocs[i].offset,
        FieldBytes(e.relocs[i], Wrap(|e.bytes| - e.relocs[i].offset)))
    ensures patched[e.start + j] == e.bytes[j]
  {
    hide FateOf, FieldBytes, Patched, InField, RelocationsOk;
    OpenElsewhere(lib, code, e, j);
    NotInField(e, i, j);
  }

  lemma PrunedField(lib: Library, code: seq<Byte>, e: Emission, i: nat, patched: seq<Byte>, end: nat, k: nat)
    requires WellFormed(lib, e) && Open(lib, code, e) && i < |e.relocs| && PrunedTo(lib, code, e, i, patched, end)
    requires k < |e.relocs| && k != i && !IsNext(lib, e, k) && end <= |code| && e.start + e.relocs[k].End() <= end
    ensures FieldDone(lib, patched[..end], e, end, k)
  {
    hide FateOf, FieldBytes, Patched, Open, FieldDone, EndsWith, IdOk, IsLastNext, IsNext, LastDeferred, TailOk, IdsOk;
    FieldsApart(lib, e, i, k);
    PatchedKeeps(lib, code, e, k, Write(e.start + e.relocs[i].offset,
      FieldBytes(e.relocs[i], Wrap(|e.bytes| - e.relocs[i].offset))), end);
  }

  lemma PrunedJump(lib: Library, code: seq<Byte>, e: Emission, i: nat, patched: seq<Byte>, end: nat)
    requires WellFormed(lib, e) && i < |e.relocs| && PrunedTo(lib, code, e, i, patched, end)
    requires end <= |code| && (end < |code| ==> end <= e.start + e.relocs[i].offset)
    ensures FieldDone(lib, patched[..end], e, end, i)
  {
    hide FieldBytes;
    var r := e.relocs[i];
    if end == |code| {
      WrittenHolds(code, Write(e.start + r.offset, FieldBytes(r, Wrap(|e.bytes| - r.offset))));
      assert patched[..end] == patched;
    }
  }

  lemma FieldsApart(lib: Library, e: Emission, i: nat, k: nat)
    requires RelocationsOk(lib, e) && i < |e.relocs| && k < |e.relocs| && i != k
    ensures e.relocs[i].End() <= e.relocs[k].offset || e.relocs[k].End() <= e.relocs[i].offset
  {
  }

  lemma SameEnd(code: seq<Byte>, start: nat, tail: seq<Byte>)
    requires start <= |code| && |tail| <= |code| - start
    ensures EndsWith(code, tail) <==> EndsWith(code[start..], tail)
  {
    assert code[start..][|code| - start - |tail|..] == code[|code| - |tail|..];
  }

  /** A field that is done stays done when another one is written and the code is cut behind it. */
  lemma PatchedKeeps(lib: Library, code: seq<Byte>, e: Emission, k: nat, w: Write, end: nat)
    requires RelocationsOk(lib, e) && Open(lib, code, e) && k < |e.relocs| && !IsNext(lib, e, k)
    requires w.End() <= |code| && end <= |code| && e.start + e.relocs[k].End() <= end
    requires e.start + e.relocs[k].End() <= w.at || w.End() <= e.start + e.relocs[k].offset
    ensures FieldDone(lib, Written(code, w.at, w.bytes)[..end], e, end, k)
  {
    hide FateOf, FieldBytes, Patched;
    OpenHolds(lib, code, e, k);
    match FateOf(lib, e, k)
    case Later(_) =>
    case Now(v) =>
      var kept := Write(e.start + e.relocs[k].offset, FieldBytes(e.relocs[k], Wrap(v)));
      WrittenKeeps(code, w, kept);
      HoldsInPrefix(Written(code, w.at, w.bytes), end, kept.at, kept.bytes);
  }

  lemma HoldsInPrefix(code: seq<Byte>, end: nat, at: nat, bytes: seq<Byte>)
    requires end <= |code| && at + |bytes| <= end && Holds(code, at, bytes)
    ensures Holds(code[..end], at, bytes)
  {
    assert code[..end][at..at + |bytes|] == code[at..at + |bytes|];
  }

  // ----- the other jumps to the next stencil -----

  lemma JumpRelative(lib: Library, e: Emission, i: nat, end: nat)
    requires RelocationsOk(lib, e) && i < |e.relocs| && IsNext(lib, e, i)
    ensures Delayed(e.start, e.relocs[i], AfterStencil).Resolve(0, end) == Wrap(end - (e.start + e.relocs[i].offset))
  {
  }

  lemma OkIds(lib: Library, e: Emission)
    requires RelocationsOk(lib, e)
    ensures IdsOk(lib, e)
  {
  }

  /** The writes of the jumps before the last one. */
  function OtherJumps(lib: Library, e: Emission, end: nat): seq<Write>
    requires IdsOk(lib, e)
  {
    var pending := Deferred(lib, e, |e.relocs|, true);
    if pending == [] then [] else NextWrites(pending[..|pending| - 1], end)
  }

  /** Each of those writes belongs to a jump of the stencil, other than its last. */
  lemma OtherJump(lib: Library, e: Emission, end: nat, k: nat) returns (i: nat)
    requires RelocationsOk(lib, e) && k < |OtherJumps(lib, e, end)|
    ensures i < |e.relocs| && IsNext(lib, e, i) && !IsLastNext(lib, e, i)
    ensures OtherJumps(lib, e, end)[k]
         == Write(e.start + e.relocs[i].offset, FieldBytes(e.relocs[i], Wrap(end - (e.start + e.relocs[i].offset))))
  {
    hide FateOf, FieldBytes, IdOk;
    var pending := Deferred(lib, e, |e.relocs|, true);
    i := DeferredFrom(lib, e, |e.relocs|, true, k);
    var l := DeferredFrom(lib, e, |e.relocs|, true, |pending| - 1);
    DeferredSorted(lib, e, |e.relocs|, true);
    OrderedByPlace(lib, e, i, l);
    JumpRelative(lib, e, i, end);
    assert IsNext(lib, e, l);
  }

  lemma OrderedByPlace(lib: Library, e: Emission, i: nat, l: nat)
    requires RelocationsOk(lib, e) && i < |e.relocs| && l < |e.relocs| && e.relocs[i].End() <= e.relocs[l].offset
    ensures i < l
  {
    hide RelocationsOk, Relocation.Width;
    RelocSizes(lib, e, i);
    if l < i {
      SortedPair(lib, e, l, i);
    }
  }

  lemma SortedPair(lib: Library, e: Emission, l: nat, i: nat)
    requires RelocationsOk(lib, e) && l < i < |e.relocs|
    ensures e.relocs[l].End() <= e.relocs[i].offset && e.relocs[l].Width() > 0
  {
    RelocSizes(lib, e, l);
  }

  /** Each jump other than the last has one of those writes. */
  lemma OtherJumpWritten(lib: Library, e: Emission, end: nat, i: nat, last: nat) returns (k: nat)
    requires RelocationsOk(lib, e) && i < |e.relocs| && IsNext(lib, e, i) && i != last
    requires last < |e.relocs| && IsLastNext(lib, e, last)
    ensures k < |OtherJumps(lib, e, end)|
    ensures OtherJumps(lib, e, end)[k]
         == Write(e.start + e.relocs[i].offset, FieldBytes(e.relocs[i], Wrap(end - (e.start + e.relocs[i].offset))))
  {
    hide FateOf, FieldBytes, IdOk;
    var pending := Deferred(lib, e, |e.relocs|, true);
    k := DeferredHas(lib, e, |e.relocs|, true, i);
    JumpRelative(lib, e, i, end);
    assert i < last;
    assert e.relocs[i].End() <= e.relocs[last].offset && e.relocs[i].FieldOk();
    LastIsLast(lib, e, true, last);
    assert pending[k].Location() < pending[|pending| - 1].Location();
  }

  lemma OtherJumpsApart(lib: Library, e: Emission, end: nat)
    requires RelocationsOk(lib, e)
    ensures var ws := OtherJumps(lib, e, end); forall k, l :: 0 <= k < l < |ws| ==> Apart(ws[k], ws[l])
  {
    hide FateOf, FieldBytes, IdOk;
    DeferredSorted(lib, e, |e.relocs|, true);
  }

  /** A buffer that is half done, with all other jumps written. */
  lemma FinishJumps(lib: Library, code: seq<Byte>, e: Emission, last: nat)
    requires RelocationsOk(lib, e) && last < |e.relocs| && IsLastNext(lib, e, last)
    requires HalfDone(lib, code, e, |code|, last)
    ensures AllFit(OtherJumps(lib, e, |code|), |code|)
    ensures var done := WriteAll(code, OtherJumps(lib, e, |code|));
      Done(lib, done, e, |code|) && done[..e.start] == code[..e.start]
  {
    hide FateOf, FieldBytes, IdOk, IsLastNext, RelocationsOk, InField, FieldDone, EndOk, WriteAll, OtherJumps, HalfDone;
    OkIds(lib, e);
    var ws := OtherJumps(lib, e, |code|);
    HalfDoneFacts(lib, code, e, last);
    JumpsFit(lib, code, e, last);
    var done := WriteAll(code, ws);
    forall j | 0 <= j < |code| - e.start && !InField(e, j) ensures done[e.start + j] == e.bytes[j] {
      OutsideJumps(lib, e, |code|, j);
      WriteAllElsewhere(code, ws, e.start + j);
    }
    forall i | 0 <= i < |e.relocs| ensures FieldDone(lib, done, e, |code|, i) {
      FieldFinished(lib, code, e, last, i);
    }
    forall x | 0 <= x < e.start ensures done[x] == code[x] {
      BeforeJumps(lib, e, |code|, x);
      WriteAllElsewhere(code, ws, x);
    }
  }

  lemma HalfDoneFacts(lib: Library, code: seq<Byte>, e: Emission, last: nat)
    requires RelocationsOk(lib, e) && HalfDone(lib, code, e, |code|, last)
    ensures IdsOk(lib, e) && e.start <= |code| <= e.start + |e.bytes| && EndOk(lib, e, |code|)
    ensures forall j :: 0 <= j < |code| - e.start && !InField(e, j) ==> code[e.start + j] == e.bytes[j]
  {
  }

  lemma JumpsFit(lib: Library, code: seq<Byte>, e: Emission, last: nat)
    requires RelocationsOk(lib, e) && last < |e.relocs| && IsLastNext(lib, e, last)
    requires HalfDone(lib, code, e, |code|, last)
    ensures AllFit(OtherJumps(lib, e, |code|), |code|)
  {
    hide FateOf, FieldBytes, IdOk, RelocationsOk, InField, FieldDone, EndOk, OtherJumps;
    OkIds(lib, e);
    var ws := OtherJumps(lib, e, |code|);
    forall k | 0 <= k < |ws| ensures ws[k].End() <= |code| {
      var i := OtherJump(lib, e, |code|, k);
    }
  }

  lemma OutsideJumps(lib: Library, e: Emission, end: nat, j: nat)
    requires RelocationsOk(lib, e) && !InField(e, j)
    ensures !Covered(OtherJumps(lib, e, end), e.start + j)
  {
    hide FateOf, FieldBytes, IdOk, RelocationsOk, InField, OtherJumps;
    OkIds(lib, e);
    var ws := OtherJumps(lib, e, end);
    forall k | 0 <= k < |ws| ensures !ws[k].Covers(e.start + j) {
      var i := OtherJump(lib, e, end, k);
      NotInField(e, i, j);
    }
  }

  lemma BeforeJumps(lib: Library, e: Emission, end: nat, x: nat)
    requires RelocationsOk(lib, e) && x < e.start
    ensures !Covered(OtherJumps(lib, e, end), x)
  {
    hide FateOf, FieldBytes, IdOk, RelocationsOk, InField, OtherJumps;
    OkIds(lib, e);
    var ws := OtherJumps(lib, e, end);
    forall k | 0 <= k < |ws| ensures !ws[k].Covers(x) {
      var i := OtherJump(lib, e, end, k);
    }
  }

  lemma FieldFinished(lib: Library, code: seq<Byte>, e: Emission, last: nat, i: nat)
    requires RelocationsOk(lib, e) && last < |e.relocs| && IsLastNext(lib, e, last)
    requires HalfDone(lib, code, e, |code|, last)
    requires AllFit(OtherJumps(lib, e, |code|), |code|) && i < |e.relocs|
    ensures FieldDone(lib, WriteAll(code, OtherJumps(lib, e, |code|)), e, |code|, i)
  {
    hide FateOf, FieldBytes, IdOk, RelocationsOk, InField, EndOk, OtherJumps, WriteAll, FieldDone;
    OkIds(lib, e);
    var ws := OtherJumps(lib, e, |code|);
    if IsNext(lib, e, i) && i != last {
      var k := OtherJumpWritten(lib, e, |code|, i, last);
      OtherJumpsApart(lib, e, |code|);
      WriteAllHolds(code, ws, k);
      JumpFieldDone(lib, WriteAll(code, ws), e, i);
    } else {
      forall k | 0 <= k < |ws| ensures ws[k].End() <= e.start + e.relocs[i].offset
          || e.start + e.relocs[i].End() <= ws[k].at {
        var l := OtherJump(lib, e, |code|, k);
        FieldsApart(lib, e, i, l);
      }
      FieldKept(lib, code, e, i, ws);
    }
  }

  lemma JumpFieldDone(lib: Library, code: seq<Byte>, e: Emission, i: nat)
    requires RelocationsOk(lib, e) && i < |e.relocs| && IsNext(lib, e, i) && e.start + e.relocs[i].End() <= |code|
    requires Holds(code, e.start + e.relocs[i].offset,
        FieldBytes(e.relocs[i], Wrap(|code| - (e.start + e.relocs[i].offset))))
    ensures FieldDone(lib, code, e, |code|, i)
  {
  }

  /** Writes elsewhere keep a field done. */
  lemma FieldKept(lib: Library, code: seq<Byte>, e: Emission, i: nat, ws: seq<Write>)
    requires IdsOk(lib, e) && i < |e.relocs| && AllFit(ws, |code|) && FieldDone(lib, code, e, |code|, i)
    requires forall k :: 0 <= k < |ws| ==>
        ws[k].End() <= e.start + e.relocs[i].offset
        || e.start + e.relocs[i].End() <= ws[k].at
    ensures FieldDone(lib, WriteAll(code, ws), e, |code|, i)
  {
    hide FateOf, FieldBytes, IdOk, WriteAll, IdsOk, Wrap, Holds, AllFit;
    var (r, place) := (e.relocs[i], e.start + e.relocs[i].offset);
    match FateOf(lib, e, i)
    case Now(v) =>
      BytesKept(code, ws, Write(place, FieldBytes(r, Wrap(v))), e.start + r.End());
    case Later(target) =>
      if target.AfterStencil? && place < |code| {
        BytesKept(code, ws, Write(place, FieldBytes(r, Wrap(|code| - place))), e.start + r.End());
      }
  }

  lemma BytesKept(code: seq<Byte>, ws: seq<Write>, kept: Write, end: nat)
    requires AllFit(ws, |code|) && Holds(code, kept.at, kept.bytes) && kept.End() == end
    requires forall k :: 0 <= k < |ws| ==> ws[k].End() <= kept.at || end <= ws[k].at
    ensures Holds(WriteAll(code, ws), kept.at, kept.bytes)
  {
    WriteAllKeeps(code, ws, kept);
  }

  // ----- settling as a whole -----

  lemma NoOtherJumps(lib: Library, code: seq<Byte>, e: Emission)
    requires RelocationsOk(lib, e) && Deferred(lib, e, |e.relocs|, true) == []
    requires HalfDone(lib, code, e, |code|, |e.relocs|)
    ensures Done(lib, code, e, |code|)
  {
    hide FateOf, FieldBytes, IdOk, InField, FieldDone, EndOk;
    forall i | 0 <= i < |e.relocs| ensures FieldDone(lib, code, e, |code|, i) {
      if IsNext(lib, e, i) {
        LastIsLast(lib, e, true, i);
      }
    }
  }

  lemma OpenLength(lib: Library, code: seq<Byte>, e: Emission)
    requires RelocationsOk(lib, e) && Open(lib, code, e)
    ensures IdsOk(lib, e) && |code| == e.start + |e.bytes|
  {
  }

  /** Pruning cuts off the no-op at the end, or nothing. */
  lemma PrunedIs(code: seq<Byte>, pending: seq<Delayed>, lastDeferred: nat, empty: seq<Byte>)
    requires pending != [] && pending[|pending| - 1].End() <= |code|
    ensures var last := pending[|pending| - 1];
      var patched := Written(code, last.Location(), FieldBytes(last.relocation, last.Resolve(0, |code|)));
      var pruned := Pruned(code, pending, lastDeferred, empty);
      && pruned == patched[..|pruned|]
      && |pruned| == |code| - if EndsWith(patched, empty) && last.Location() > lastDeferred then |empty| else 0
  {
    hide FieldBytes;
  }

  /** When the next stencil is emitted, the last one is finished, and nothing before it changes. */
  lemma SettleFinishes(lib: Library, code: seq<Byte>, e: Emission, before: seq<Delayed>)
    requires WellFormed(lib, e) && Open(lib, code, e) && AllBefore(before, e.start)
    ensures var pending := Deferred(lib, e, |e.relocs|, true);
      SettleOk(code, pending, MaxDeferred(before + Deferred(lib, e, |e.relocs|, false)), lib.empty)
    ensures var pending := Deferred(lib, e, |e.relocs|, true);
      var settled := Settled(code, pending, MaxDeferred(before + Deferred(lib, e, |e.relocs|, false)), lib.empty);
      Done(lib, settled, e, |settled|) && |settled| <= |code| && settled[..e.start] == code[..e.start]
  {
    hide FateOf, FieldBytes, IdOk, RelocationsOk, InField, EndOk, Done, HalfDone, Open, TailOk, WriteAll, EndsWith,
         IsLastNext;
    OkIds(lib, e);
    var pending := Deferred(lib, e, |e.relocs|, true);
    var lastDeferred := MaxDeferred(before + Deferred(lib, e, |e.relocs|, false));
    if pending == [] {
      NoNext(lib, code, e);
      NoOtherJumps(lib, code, e);
    } else {
      var i := LastNext(lib, e);
      RelocSizes(lib, e, i);
      OpenLength(lib, code, e);
      var patched := Written(code, e.start + e.relocs[i].offset,
          FieldBytes(e.relocs[i], Wrap(|e.bytes| - e.relocs[i].offset)));
      var pruned := Pruned(code, pending, lastDeferred, lib.empty);
      JumpRelative(lib, e, i, |code|);
      PrunedIs(code, pending, lastDeferred, lib.empty);
      LocationTellsOrder(lib, e, before, i);
      assert PrunedTo(lib, code, e, i, patched, |pruned|);
      PrunedEnd(lib, code, e, i, patched, |pruned|);
      PrunedHalfDone(lib, code, e, i, patched, |pruned|);
      FinishJumps(lib, pruned, e, i);
      assert pruned[..e.start] == patched[..e.start];
    }
  }
}
