/** What has been emitted into a block so far, and how the fields of `PatchBlock` follow from it (`src/patch.rs`). */
module PatchLogs {
  import opened Words
  import opened Buffers
  import opened Relocations
  import opened Emissions
  import opened PatchBlocks

  ghost predicate AllWellFormed(lib: Library, log: seq<Emission>) {
    forall k :: 0 <= k < |log| ==> WellFormed(lib, log[k])
  }

  /** The relocations of the block that wait for its address, in order. */
  ghost function AllDeferred(lib: Library, log: seq<Emission>): seq<Delayed>
    requires AllWellFormed(lib, log)
  {
    if log == [] then []
    else
      var last := log[|log| - 1];
      AllDeferred(lib, log[..|log| - 1]) + Deferred(lib, last, |last.relocs|, false)
  }

  /** The constants of the block, in order. */
  ghost function AllConstants(lib: Library, log: seq<Emission>): seq<Word>
    requires AllWellFormed(lib, log)
  {
    if log == [] then []
    else
      var last := log[|log| - 1];
      HoleIds(lib, last);
      AllConstants(lib, log[..|log| - 1]) + Constants(last, |last.relocs|)
  }

  /** The jumps that wait for the end of the last stencil. */
  ghost function Pending(lib: Library, log: seq<Emission>): seq<Delayed>
    requires AllWellFormed(lib, log)
  {
    if log == [] then [] else Deferred(lib, log[|log| - 1], |log[|log| - 1].relocs|, true)
  }

  lemma HoleIds(lib: Library, e: Emission)
    requires WellFormed(lib, e)
    ensures HoleIdsOk(e, |e.relocs|)
  {
    forall i | 0 <= i < |e.relocs| ensures e.relocs[i].kind.Hole? ==> e.relocs[i].id < |e.args.holes| {
      assert IdOk(lib, e, i);
    }
  }

  /** The code is that of the stencils, one after the other: all are finished except the last. */
  ghost predicate LogOk(lib: Library, log: seq<Emission>, code: seq<Byte>) {
    && AllWellFormed(lib, log)
    && (log == [] ==> code == [])
    && (log != [] ==> log[0].start == 0 && Open(lib, code, log[|log| - 1]))
    && (forall k :: 0 <= k < |log| - 1 ==> Done(lib, code, log[k], log[k + 1].start))
    && (forall k :: 0 <= k < |log| ==> log[k].firstConstant == |AllConstants(lib, log[..k])|)
  }

  /** Where stencil `k` ends. */
  function EndOf(log: seq<Emission>, size: nat, k: nat): nat
    requires k < |log|
  {
    if k + 1 < |log| then log[k + 1].start else size
  }

  lemma {:induction false} StartsOrdered(lib: Library, log: seq<Emission>, code: seq<Byte>, k: nat, l: nat)
    requires LogOk(lib, log, code) && k <= l < |log|
    ensures log[k].start <= log[l].start <= |code|
    decreases l - k
  {
    hide RelocationsOk, TailOk, EndOk, FieldDone, InField, Patched, AllConstants;
    if l < |log| - 1 {
      assert Done(lib, code, log[l], log[l + 1].start);
    }
    if k < l {
      StartsOrdered(lib, log, code, k, l - 1);
      assert Done(lib, code, log[l - 1], log[l - 1 + 1].start);
    }
  }

  /** A finished stencil stays finished when the code changes behind it. */
  lemma DoneStays(lib: Library, code: seq<Byte>, after: seq<Byte>, e: Emission, end: nat)
    requires WellFormed(lib, e) && Done(lib, code, e, end)
    requires end <= |after| && after[..end] == code[..end]
    ensures Done(lib, after, e, end)
  {
    hide FateOf, FieldBytes, IdOk, InField, FieldDone, EndOk, TailOk;
    forall j | 0 <= j < end - e.start && !InField(e, j) ensures after[e.start + j] == e.bytes[j] {
      assert after[..end][e.start + j] == code[..end][e.start + j];
    }
    forall i | 0 <= i < |e.relocs| ensures FieldDone(lib, after, e, end, i) {
      FieldStays(lib, code, after, e, end, i);
    }
  }

  lemma FieldStays(lib: Library, code: seq<Byte>, after: seq<Byte>, e: Emission, end: nat, i: nat)
    requires i < |e.relocs| && IdsOk(lib, e) && FieldDone(lib, code, e, end, i)
    requires end <= |code| && end <= |after| && after[..end] == code[..end]
    ensures FieldDone(lib, after, e, end, i)
  {
    hide FateOf, FieldBytes, IdOk, Wrap, Holds, IdsOk;
    var (r, place) := (e.relocs[i], e.start + e.relocs[i].offset);
    match FateOf(lib, e, i)
    case Now(v) =>
      SamePrefixHolds(code, after, end, place, FieldBytes(r, Wrap(v)));
    case Later(target) =>
      if target.AfterStencil? && place < end {
        SamePrefixHolds(code, after, end, place, FieldBytes(r, Wrap(end - place)));
      }
  }

  lemma SamePrefixHolds(code: seq<Byte>, after: seq<Byte>, end: nat, at: nat, bytes: seq<Byte>)
    requires end <= |code| && end <= |after| && after[..end] == code[..end]
    requires at + |bytes| <= end && Holds(code, at, bytes)
    ensures Holds(after, at, bytes)
  {
    assert after[at..at + |bytes|] == after[..end][at..at + |bytes|] == code[at..at + |bytes|];
  }

  /** A stencil that has just been appended and patched. */
  lemma AppendOpen(lib: Library, settled: seq<Byte>, e: Emission)
    requires WellFormed(lib, e) && e.start == |settled|
    ensures Open(lib, settled + Patched(lib, e, |e.relocs|), e)
  {
  }

  /** Emission keeps the block in order. */
  lemma AppendKeeps(lib: Library, log: seq<Emission>, code: seq<Byte>, e: Emission)
    requires LogOk(lib, log, code) && WellFormed(lib, e)
    ensures SettleOk(code, Pending(lib, log), MaxDeferred(AllDeferred(lib, log)), lib.empty)
    ensures var settled := Settled(code, Pending(lib, log), MaxDeferred(AllDeferred(lib, log)), lib.empty);
      e.start == |settled| && e.firstConstant == |AllConstants(lib, log)|
      ==> AllWellFormed(lib, log + [e]) && LogOk(lib, log + [e], settled + Patched(lib, e, |e.relocs|))
  {
    SettleReady(lib, log, code);
    SettledDone(lib, log, code);
    var settled := Settled(code, Pending(lib, log), MaxDeferred(AllDeferred(lib, log)), lib.empty);
    if e.start == |settled| && e.firstConstant == |AllConstants(lib, log)| {
      AppendOpen(lib, settled, e);
      AppendLogOk(lib, log, settled, e);
    }
  }

  /** Field `i` of stencil `k` belongs to a deferred relocation, which is not a jump to the next stencil. */
  ghost predicate IsDeferred(lib: Library, log: seq<Emission>, k: nat, i: nat)
    requires AllWellFormed(lib, log)
  {
    && k < |log| && i < |log[k].relocs|
    && FateOf(lib, log[k], i).Later? && !FateOf(lib, log[k], i).target.AfterStencil?
  }

  ghost function DeferredOf(lib: Library, log: seq<Emission>, k: nat, i: nat): Delayed
    requires AllWellFormed(lib, log) && IsDeferred(lib, log, k, i)
  {
    Delayed(log[k].start, log[k].relocs[i], FateOf(lib, log[k], i).target)
  }

  lemma {:induction false} AllDeferredFrom(lib: Library, log: seq<Emission>, m: nat) returns (k: nat, i: nat)
    requires AllWellFormed(lib, log) && m < |AllDeferred(lib, log)|
    ensures IsDeferred(lib, log, k, i) && AllDeferred(lib, log)[m] == DeferredOf(lib, log, k, i)
    decreases |log|
  {
    hide FateOf, RelocationsOk, TailOk, Deferred;
    var n := |log| - 1;
    var before := AllDeferred(lib, log[..n]);
    if m < |before| {
      k, i := AllDeferredFrom(lib, log[..n], m);
    } else {
      k := n;
      OkIds(lib, log[n]);
      i := DeferredFrom(lib, log[n], |log[n].relocs|, false, m - |before|);
    }
  }

  lemma {:induction false} AllDeferredHas(lib: Library, log: seq<Emission>, k: nat, i: nat) returns (m: nat)
    requires AllWellFormed(lib, log) && IsDeferred(lib, log, k, i)
    ensures m < |AllDeferred(lib, log)| && AllDeferred(lib, log)[m] == DeferredOf(lib, log, k, i)
    decreases |log|
  {
    hide FateOf, RelocationsOk, TailOk, Deferred;
    var n := |log| - 1;
    OkIds(lib, log[k]);
    if k == n {
      m := DeferredHas(lib, log[n], |log[n].relocs|, false, i);
      m := |AllDeferred(lib, log[..n])| + m;
    } else {
      assert log[..n][k] == log[k];
      m := AllDeferredHas(lib, log[..n], k, i);
    }
  }

  /** The deferred relocations of finished stencils lie before the last one. */
  lemma EarlierDeferred(lib: Library, log: seq<Emission>, code: seq<Byte>)
    requires LogOk(lib, log, code) && log != []
    ensures AllBefore(AllDeferred(lib, log[..|log| - 1]), log[|log| - 1].start)
  {
    hide FateOf, RelocationsOk, TailOk, Deferred, AllDeferred, Open, EndOk, InField, AllConstants;
    var (n, init) := (|log| - 1, log[..|log| - 1]);
    var ds := AllDeferred(lib, init);
    if ds != [] {
      var k, i := AllDeferredFrom(lib, init, |ds| - 1);
      RelocSizes(lib, log[k], i);
      assert init[k] == log[k];
      OkIds(lib, log[k]);
      assert Done(lib, code, log[k], log[k + 1].start);
      assert FieldDone(lib, code, log[k], log[k + 1].start, i);
      StartsOrdered(lib, log, code, k + 1, n);
    }
  }

  lemma SettleReady(lib: Library, log: seq<Emission>, code: seq<Byte>)
    requires LogOk(lib, log, code)
    ensures SettleOk(code, Pending(lib, log), MaxDeferred(AllDeferred(lib, log)), lib.empty)
  {
    hide Settled, WellFormed, Open, Done;
    if log != [] {
      EarlierDeferred(lib, log, code);
      SettleFinishes(lib, code, log[|log| - 1], AllDeferred(lib, log[..|log| - 1]));
    }
  }

  ghost predicate AllDone(lib: Library, log: seq<Emission>, code: seq<Byte>)
    requires AllWellFormed(lib, log)
  {
    forall k :: 0 <= k < |log| ==> Done(lib, code, log[k], EndOf(log, |code|, k))
  }

  /** Settling finishes the last stencil, and keeps the others finished. */
  lemma SettledDone(lib: Library, log: seq<Emission>, code: seq<Byte>)
    requires LogOk(lib, log, code)
    requires SettleOk(code, Pending(lib, log), MaxDeferred(AllDeferred(lib, log)), lib.empty)
    ensures AllDone(lib, log, Settled(code, Pending(lib, log), MaxDeferred(AllDeferred(lib, log)), lib.empty))
  {
    hide Settled, RelocationsOk, TailOk, Open, Done, SettleOk, AllConstants;
    var settled := Settled(code, Pending(lib, log), MaxDeferred(AllDeferred(lib, log)), lib.empty);
    if log != [] {
      var n := |log| - 1;
      EarlierDeferred(lib, log, code);
      SettleFinishes(lib, code, log[n], AllDeferred(lib, log[..n]));
      StartWithin(lib, settled, log[n], |settled|);
      forall k | 0 <= k < n ensures Done(lib, settled, log[k], log[k + 1].start) {
        EarlierStays(lib, log, code, settled, k);
      }
    }
  }

  lemma EarlierStays(lib: Library, log: seq<Emission>, code: seq<Byte>, settled: seq<Byte>, k: nat)
    requires LogOk(lib, log, code) && k < |log| - 1
    requires var start := log[|log| - 1].start;
      start <= |settled| && start <= |code|
        && settled[..start] == code[..start]
    ensures Done(lib, settled, log[k], log[k + 1].start)
  {
    hide Settled, RelocationsOk, TailOk, Open, Done, SettleOk, AllConstants;
    StartsOrdered(lib, log, code, k + 1, |log| - 1);
    assert settled[..log[k + 1].start] == code[..log[k + 1].start] by {
      var start := log[|log| - 1].start;
      assert settled[..log[k + 1].start] == settled[..start][..log[k + 1].start];
      assert code[..log[k + 1].start] == code[..start][..log[k + 1].start];
    }
    DoneStays(lib, code, settled, log[k], log[k + 1].start);
  }

  lemma StartWithin(lib: Library, code: seq<Byte>, e: Emission, end: nat)
    requires WellFormed(lib, e) && Done(lib, code, e, end)
    ensures e.start <= end <= |code| && end <= e.start + |e.bytes|
  {
  }

  lemma AppendLogOk(lib: Library, log: seq<Emission>, settled: seq<Byte>, e: Emission)
    requires AllWellFormed(lib, log) && WellFormed(lib, e) && AllDone(lib, log, settled)
    requires log == [] ==> settled == []
    requires log != [] ==> log[0].start == 0
    requires forall k :: 0 <= k < |log| ==> log[k].firstConstant == |AllConstants(lib, log[..k])|
    requires e.start == |settled| && e.firstConstant == |AllConstants(lib, log)|
    ensures AllWellFormed(lib, log + [e]) && LogOk(lib, log + [e], settled + Patched(lib, e, |e.relocs|))
  {
    hide RelocationsOk, TailOk, Open, Done, Patched, AllConstants;
    var all, code := log + [e], settled + Patched(lib, e, |e.relocs|);
    AppendOpen(lib, settled, e);
    forall k | 0 <= k < |log| ensures Done(lib, code, all[k], all[k + 1].start) {
      assert all[k + 1].start == EndOf(log, |settled|, k);
      StillDone(lib, log, settled, code, k);
    }
    forall k | 0 <= k < |all| ensures all[k].firstConstant == |AllConstants(lib, all[..k])| {
      assert all[..k] == if k < |log| then log[..k] else log;
    }
  }

  lemma StillDone(lib: Library, log: seq<Emission>, settled: seq<Byte>, code: seq<Byte>, k: nat)
    requires AllWellFormed(lib, log) && AllDone(lib, log, settled) && k < |log| && settled <= code
    ensures Done(lib, code, log[k], EndOf(log, |settled|, k))
  {
    hide RelocationsOk, TailOk, Done;
    StartWithin(lib, settled, log[k], EndOf(log, |settled|, k));
    DoneStays(lib, settled, code, log[k], EndOf(log, |settled|, k));
  }
}
