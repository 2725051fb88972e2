/** What a finished block holds: the end-to-end correctness of linking (`src/patch.rs`). */
module LinkedBlocks {
  import opened Words
  import opened Buffers
  import opened Relocations
  import opened Emissions
  import opened PatchBlocks
  import opened PatchLogs
  import opened Layouts

  // ----- the code when all stencils are finished -----

  /** As `LogOk`, but the last stencil is finished too: no jump waits for its end. */
  ghost predicate ClosedLog(lib: Library, log: seq<Emission>, code: seq<Byte>) {
    && AllWellFormed(lib, log) && AllDone(lib, log, code)
    && (log == [] ==> code == [])
    && (log != [] ==> log[0].start == 0)
    && (forall k :: 0 <= k < |log| ==> log[k].firstConstant == |AllConstants(lib, log[..k])|)
  }

  lemma LogCloses(lib: Library, log: seq<Emission>, code: seq<Byte>)
    requires LogOk(lib, log, code) && Pending(lib, log) == []
    ensures ClosedLog(lib, log, code)
  {
    hide RelocationsOk, TailOk, Open, Done, AllConstants, Deferred;
    if log != [] {
      var last := log[|log| - 1];
      NoNext(lib, code, last);
      NoOtherJumps(lib, code, last);
      forall k | 0 <= k < |log| ensures Done(lib, code, log[k], EndOf(log, |code|, k)) {
        if k < |log| - 1 {
          assert Done(lib, code, log[k], log[k + 1].start);
        }
      }
    }
  }

  lemma EndWithin(lib: Library, log: seq<Emission>, code: seq<Byte>, k: nat)
    requires AllWellFormed(lib, log) && AllDone(lib, log, code) && k < |log|
    ensures log[k].start <= EndOf(log, |code|, k) <= |code| && EndOf(log, |code|, k) <= log[k].start + |log[k].bytes|
  {
    hide RelocationsOk, TailOk, Done;
    StartWithin(lib, code, log[k], EndOf(log, |code|, k));
  }

  lemma {:induction false} EndsOrdered(lib: Library, log: seq<Emission>, code: seq<Byte>, k: nat, l: nat)
    requires AllWellFormed(lib, log) && AllDone(lib, log, code) && k < l < |log|
    ensures EndOf(log, |code|, k) <= log[l].start
    decreases l - k
  {
    hide AllWellFormed, AllDone;
    if k < l - 1 {
      EndsOrdered(lib, log, code, k, l - 1);
      EndWithin(lib, log, code, l - 1);
    }
  }

  /** A deferred field lies within its stencil. */
  lemma DeferredWithin(lib: Library, log: seq<Emission>, code: seq<Byte>, k: nat, i: nat)
    requires AllWellFormed(lib, log) && AllDone(lib, log, code) && IsDeferred(lib, log, k, i)
    ensures log[k].start + log[k].relocs[i].End() <= EndOf(log, |code|, k)
    ensures log[k].relocs[i].FieldOk()
  {
    hide FateOf, TailOk, EndOk, InField;
    RelocSizes(lib, log[k], i);
    assert FieldDone(lib, code, log[k], EndOf(log, |code|, k), i);
  }

  /** All deferred relocations are sorted and lie inside the code. */
  lemma {:induction false} AllDeferredSorted(lib: Library, log: seq<Emission>, n: nat, code: seq<Byte>)
    requires AllWellFormed(lib, log) && AllDone(lib, log, code) && n <= |log|
    ensures SortedDelayed(AllDeferred(lib, log[..n]))
    ensures forall m :: 0 <= m < |AllDeferred(lib, log[..n])| ==>
      && AllDeferred(lib, log[..n])[m].relocation.FieldOk()
      && AllDeferred(lib, log[..n])[m].End() <= if n == 0 then 0 else EndOf(log, |code|, n - 1)
    decreases n
  {
    hide FateOf, RelocationsOk, TailOk, Done, Deferred, IsDeferred, DeferredOf;
    if n > 0 {
      var last := log[n - 1];
      OkIds(lib, last);
      assert log[..n][..n - 1] == log[..n - 1];
      AllDeferredSorted(lib, log, n - 1, code);
      DeferredSorted(lib, last, |last.relocs|, false);
      EndWithin(lib, log, code, n - 1);
      var (before, own) := (AllDeferred(lib, log[..n - 1]), Deferred(lib, last, |last.relocs|, false));
      forall m | 0 <= m < |before| ensures before[m].End() <= last.start {
      }
      SortedConcat(before, own, last.start);
      forall m | 0 <= m < |own| ensures own[m].End() <= EndOf(log, |code|, n - 1) {
        OwnWithin(lib, log, code, n - 1, m);
      }
    }
  }

  lemma OwnWithin(lib: Library, log: seq<Emission>, code: seq<Byte>, k: nat, m: nat)
    requires AllWellFormed(lib, log) && AllDone(lib, log, code) && k < |log|
    requires IdsOk(lib, log[k]) && m < |Deferred(lib, log[k], |log[k].relocs|, false)|
    ensures Deferred(lib, log[k], |log[k].relocs|, false)[m].End() <= EndOf(log, |code|, k)
  {
    hide FateOf, RelocationsOk, TailOk, Done, Deferred;
    var i := DeferredFrom(lib, log[k], |log[k].relocs|, false, m);
    DeferredWithin(lib, log, code, k, i);
  }

  // ----- the linked block -----

  /** The address that relocation `i` of a stencil that ends at `end` refers to, the S of the formula. */
  ghost function SymbolOf(lib: Library, e: Emission, end: nat, i: nat, p: Plan, site: Site): nat
    requires i < |e.relocs| && IdsOk(lib, e)
    requires FateOf(lib, e, i).Later? && !FateOf(lib, e, i).target.AfterStencil?
        ==> Resolvable(site, FateOf(lib, e, i).target)
  {
    match FateOf(lib, e, i)
    case Now(v) => v
    case Later(target) => if target.AfterStencil? then site.BlockBase() + end else Address(p, site, target)
  }

  /** The final field of relocation `i`: the bytes of S + A or S + A - P, except that the no-op jump at the very
      end of a stencil may have been removed.  What a wide hole refers to is a slot with the value of the hole. */
  ghost predicate FieldLinked(lib: Library, image: seq<Byte>, e: Emission, end: nat, i: nat, p: Plan, site: Site)
    requires i < |e.relocs| && IdsOk(lib, e)
  {
    var (r, place) := (e.relocs[i], e.start + e.relocs[i].offset);
    if IsNext(lib, e, i) && end <= place then true
    else
      && (IsNext(lib, e, i) || FateOf(lib, e, i).Now? || Resolvable(site, FateOf(lib, e, i).target))
      && e.start + r.End() <= end
      && Holds(image, place, Bytes(Formula(r, SymbolOf(lib, e, end, i, p, site), site.BlockBase() + place), r.Width()))
      && (IsWide(e, i) ==>
            var c := FateOf(lib, e, i).target;
            c.Constant? && c.index < |p.constants| && e.relocs[i].id < |e.args.holes|
              && p.constants[c.index] == e.args.holes[e.relocs[i].id])
      && (FateOf(lib, e, i).Later? && FateOf(lib, e, i).target.RuntimeSymbol? ==> e.relocs[i].id in p.symbols)
  }

  ghost predicate StencilLinked(lib: Library, image: seq<Byte>, e: Emission, end: nat, p: Plan, site: Site)
    requires WellFormed(lib, e)
  {
    && e.start <= end <= |image| && end <= e.start + |e.bytes| && EndOk(lib, e, end)
    && (forall j :: 0 <= j < end - e.start && !InField(e, j) ==> image[e.start + j] == e.bytes[j])
    && (forall i :: 0 <= i < |e.relocs| ==> FieldLinked(lib, image, e, end, i, p, site))
  }

  /** Trampoline `t` is a copy of the long jump, and its pool slot holds the address of its symbol. */
  ghost predicate TrampolineSupplied(lib: Library, image: seq<Byte>, t: nat, p: Plan)
    requires t < |p.symbols|
  {
    && IsLongJump(lib, p.trampoline, p.trampolineRelocs) && p.symbols[t] < |lib.rtSymbols|
    && Holds(image, p.SlotAt(|p.constants| + t), Bytes(lib.rtSymbols[p.symbols[t]], WORD_BYTES))
  }

  /** Trampoline `t` is the long jump, with its holes referring to the slot with the address of its symbol. */
  ghost predicate TrampolineLinked(lib: Library, image: seq<Byte>, t: nat, p: Plan, site: Site)
    requires t < |p.symbols|
  {
    var at := p.TrampolineAt(t);
    && at + |p.trampoline| <= |image|
    && (forall j ::
         0 <= j < |p.trampoline| && !(exists i :: 0 <= i < |p.trampolineRelocs| && HoleZeroAt(p, i, j))
         ==> image[at + j] == p.trampoline[j])
    && (forall i :: 0 <= i < |p.trampolineRelocs| && IsHoleZero(p.trampolineRelocs[i]) ==>
          var r := p.trampolineRelocs[i];
          Holds(image, at + r.offset, Bytes(Formula(r, site.BlockBase() + p.SlotAt(|p.constants| + t),
            site.BlockBase() + at + r.offset), r.Width())))
  }

  predicate IsHoleZero(r: Relocation) {
    r.kind == Hole && r.id == 0
  }

  predicate HoleZeroAt(p: Plan, i: nat, j: nat)
    requires i < |p.trampolineRelocs|
  {
    IsHoleZero(p.trampolineRelocs[i]) && p.trampolineRelocs[i].offset <= j < p.trampolineRelocs[i].End()
  }

  ghost predicate PoolLinked(image: seq<Byte>, p: Plan) {
    forall i :: 0 <= i < |p.Values()| ==> Holds(image, p.SlotAt(i), Bytes(p.Values()[i], WORD_BYTES))
  }

  /** All of the block. */
  ghost predicate Linked(lib: Library, log: seq<Emission>, size: nat, image: seq<Byte>, p: Plan, site: Site)
    requires AllWellFormed(lib, log)
  {
    && p.Ok() && p.codeLen == size && |image| == p.Len()
    && (log != [] ==> log[0].start == 0)
    && (forall k :: 0 <= k < |log| ==> StencilLinked(lib, image, log[k], EndOf(log, size, k), p, site))
    && (forall t :: 0 <= t < |p.symbols| ==> TrampolineLinked(lib, image, t, p, site))
    && (forall t :: 0 <= t < |p.symbols| ==> TrampolineSupplied(lib, image, t, p))
    && PoolLinked(image, p)
  }

  /** What a plan takes from the code, the relocations and the constants of the block. */
  ghost predicate PlanShape(lib: Library, log: seq<Emission>, code: seq<Byte>, p: Plan)
    requires AllWellFormed(lib, log)
  {
    && p.Ok() && p.codeLen == |code| && p.constants == AllConstants(lib, log)
      && p.symbols == Symbols(AllDeferred(lib, log))
  }

  /** The plan of a block. */
  ghost predicate PlanOf(lib: Library, log: seq<Emission>, code: seq<Byte>, p: Plan)
    requires AllWellFormed(lib, log)
  {
    PlanShape(lib, log, code, p) && Supplied(lib, p)
  }

  function AllFixes(p: Plan, ds: seq<Delayed>): seq<Delayed> {
    ds + TrampolineDelayed(p, |p.symbols|)
  }

  /** The memory of the block, once all deferred relocations are resolved. */
  ghost function FinalImage(p: Plan, site: Site, code: seq<Byte>, ds: seq<Delayed>, image: seq<Byte>): (r: seq<Byte>)
    requires |code| == p.codeLen && |image| == p.Len()
    requires AllResolvable(site, AllFixes(p, ds)) && AllFit(Fixes(p, site, AllFixes(p, ds)), p.Len())
    ensures |r| == |image|
  {
    WriteAll(BaseImage(p, code, image), Fixes(p, site, AllFixes(p, ds)))
  }

  /** A finished block that can be linked, and the memory it goes to. */
  ghost predicate LinkReady(lib: Library, log: seq<Emission>, code: seq<Byte>, p: Plan, site: Site, image: seq<Byte>) {
    && ClosedLog(lib, log, code) && PlanShape(lib, log, code, p) && |image| == p.Len()
    && AllResolvable(site, AllDeferred(lib, log)) && AllResolvable(site, AllFixes(p, AllDeferred(lib, log)))
    && AllFit(Fixes(p, site, AllFixes(p, AllDeferred(lib, log))), p.Len())
  }

  // ----- everything that is fixed at the end -----

  lemma FixesReady(lib: Library, log: seq<Emission>, code: seq<Byte>, p: Plan, site: Site)
    requires ClosedLog(lib, log, code) && PlanShape(lib, log, code, p) && AllResolvable(site, AllDeferred(lib, log))
    ensures var ds := AllFixes(p, AllDeferred(lib, log));
      && AllResolvable(site, ds) && SortedDelayed(ds) && AllFit(Fixes(p, site, ds), p.Len())
      && forall m :: 0 <= m < |ds| ==> ds[m].relocation.FieldOk() && ds[m].End() <= p.TrampolineAt(|p.symbols|)
    ensures forall m :: 0 <= m < |AllDeferred(lib, log)| ==> AllDeferred(lib, log)[m].End() <= p.codeLen
  {
    hide AllWellFormed, AllDone, AllDeferred, Plan.TrampolineAt, Plan.PoolBase, Plan.SlotAt, Plan.Ok, AllConstants,
         Plan.Values;
    var (own, tramp) := (AllDeferred(lib, log), TrampolineDelayed(p, |p.symbols|));
    PlanBounds(p);
    TrampolineSorted(p, |p.symbols|);
    OwnSorted(lib, log, code);
    SortedConcat(own, tramp, p.codeLen);
    forall m | 0 <= m < |tramp| ensures Resolvable(site, tramp[m].target) {
      var t, i := TrampolineFrom(p, |p.symbols|, m);
    }
    FixesFit(p, site, AllFixes(p, own), p.Len());
  }

  lemma OwnSorted(lib: Library, log: seq<Emission>, code: seq<Byte>)
    requires ClosedLog(lib, log, code)
    ensures var ds := AllDeferred(lib, log);
      SortedDelayed(ds) && forall m :: 0 <= m < |ds| ==> ds[m].relocation.FieldOk() && ds[m].End() <= |code|
  {
    hide AllWellFormed, AllDone, AllDeferred;
    AllDeferredSorted(lib, log, |log|, code);
    assert log[..|log|] == log;
  }

  // ----- what the fixes do not touch -----

  /** Fields of the code that are different do not overlap. */
  lemma FieldsOfLogApart(lib: Library, log: seq<Emission>, code: seq<Byte>, k: nat, i: nat, k': nat, i': nat)
    requires AllWellFormed(lib, log) && AllDone(lib, log, code)
    requires k < |log| && i < |log[k].relocs| && log[k].start + log[k].relocs[i].End() <= EndOf(log, |code|, k)
    requires k' < |log| && i' < |log[k'].relocs| && log[k'].start + log[k'].relocs[i'].End() <= EndOf(log, |code|, k')
    requires k != k' || i != i'
    ensures log[k].start + log[k].relocs[i].End() <= log[k'].start + log[k'].relocs[i'].offset
         || log[k'].start + log[k'].relocs[i'].End() <= log[k].start + log[k].relocs[i].offset
  {
    hide RelocationsOk, TailOk, AllDone, EndOf;
    if k < k' {
      EndsOrdered(lib, log, code, k, k');
    } else if k' < k {
      EndsOrdered(lib, log, code, k', k);
    } else {
      FieldsApart(lib, log[k], i, i');
    }
  }

  /** The fixes leave a field alone that is not deferred. */
  lemma FixesMissField(lib: Library, log: seq<Emission>, code: seq<Byte>, p: Plan, site: Site, k: nat, i: nat, m: nat)
    requires ClosedLog(lib, log, code) && PlanShape(lib, log, code, p)
    requires AllResolvable(site, AllFixes(p, AllDeferred(lib, log))) && m < |AllFixes(p, AllDeferred(lib, log))|
    requires k < |log| && i < |log[k].relocs| && !IsDeferred(lib, log, k, i)
    requires log[k].start + log[k].relocs[i].End() <= EndOf(log, |code|, k)
    ensures var w := Fixes(p, site, AllFixes(p, AllDeferred(lib, log)))[m];
      w.End() <= log[k].start + log[k].relocs[i].offset || log[k].start + log[k].relocs[i].End() <= w.at
  {
    hide AllWellFormed, AllDone, AllDeferred, FateOf, TrampolineDelayed, Resolvable, Address, FieldBytes, EndOf,
         AllConstants, Plan.TrampolineAt;
    var own := AllDeferred(lib, log);
    FixIsFormula(p, site, AllFixes(p, own)[m]);
    if m < |own| {
      var k', i' := AllDeferredFrom(lib, log, m);
      DeferredWithin(lib, log, code, k', i');
      FieldsOfLogApart(lib, log, code, k, i, k', i');
    } else {
      TrampolineSorted(p, |p.symbols|);
      EndWithin(lib, log, code, k);
    }
  }

  /** The fixes leave a byte of the code alone that is in no field. */
  lemma FixesMissByte(lib: Library, log: seq<Emission>, code: seq<Byte>, p: Plan, site: Site, k: nat, j: nat, m: nat)
    requires ClosedLog(lib, log, code) && PlanShape(lib, log, code, p)
    requires AllResolvable(site, AllFixes(p, AllDeferred(lib, log))) && m < |AllFixes(p, AllDeferred(lib, log))|
    requires k < |log| && !InField(log[k], j) && log[k].start + j < EndOf(log, |code|, k)
    ensures !Fixes(p, site, AllFixes(p, AllDeferred(lib, log)))[m].Covers(log[k].start + j)
  {
    hide AllWellFormed, AllDone, AllDeferred, FateOf, TrampolineDelayed, Resolvable, Address, FieldBytes, EndOf,
         AllConstants, Plan.TrampolineAt, InField;
    var own := AllDeferred(lib, log);
    FixIsFormula(p, site, AllFixes(p, own)[m]);
    EndWithin(lib, log, code, k);
    if m < |own| {
      var k', i' := AllDeferredFrom(lib, log, m);
      DeferredWithin(lib, log, code, k', i');
      OutsideField(lib, log, code, k, j, k', i');
    } else {
      TrampolineSorted(p, |p.symbols|);
    }
  }

  lemma OutsideField(lib: Library, log: seq<Emission>, code: seq<Byte>, k: nat, j: nat, k': nat, i': nat)
    requires AllWellFormed(lib, log) && AllDone(lib, log, code)
    requires k < |log| && !InField(log[k], j) && log[k].start + j < EndOf(log, |code|, k)
    requires k' < |log| && i' < |log[k'].relocs| && log[k'].start + log[k'].relocs[i'].End() <= EndOf(log, |code|, k')
    ensures !(log[k'].start + log[k'].relocs[i'].offset <= log[k].start + j < log[k'].start + log[k'].relocs[i'].End())
  {
    hide AllWellFormed, AllDone, EndOf, InField;
    if k < k' {
      EndsOrdered(lib, log, code, k, k');
    } else if k' < k {
      EndsOrdered(lib, log, code, k', k);
    } else {
      NotInField(log[k], i', j);
    }
  }

  // ----- the fields -----

  /** What the finished code holds, the linked block holds. */
  lemma FieldThere(lib: Library, log: seq<Emission>, code: seq<Byte>, p: Plan, site: Site, image: seq<Byte>, k: nat,
                   i: nat, bytes: seq<Byte>)
    requires LinkReady(lib, log, code, p, site, image)
    requires k < |log| && i < |log[k].relocs| && !IsDeferred(lib, log, k, i) && |bytes| == log[k].relocs[i].Width()
    requires log[k].start + log[k].relocs[i].End() <= EndOf(log, |code|, k)
    requires Holds(code, log[k].start + log[k].relocs[i].offset, bytes)
    ensures Holds(FinalImage(p, site, code, AllDeferred(lib, log), image), log[k].start + log[k].relocs[i].offset,
        bytes)
  {
    hide AllDone, AllWellFormed, AllDeferred, IsDeferred, TrampolineDelayed, Resolvable, Address, FieldBytes, EndOf,
         AllConstants, Plan.TrampolineAt, Plan.Len, BaseImage, WriteAll, Holds;
    var place := log[k].start + log[k].relocs[i].offset;
    var fixes := Fixes(p, site, AllFixes(p, AllDeferred(lib, log)));
    HoldsExtended(code, Copies(p.trampoline, |p.symbols|), place, bytes);
    BaseCode(p, code, image, place, bytes);
    forall m | 0 <= m < |fixes| ensures Apart(Write(place, bytes), fixes[m]) {
      FixesMissField(lib, log, code, p, site, k, i, m);
    }
    WriteAllKeeps(BaseImage(p, code, image), fixes, Write(place, bytes));
  }

  /** A fix stays in place. */
  lemma FixHolds(p: Plan, site: Site, code: seq<Byte>, ds: seq<Delayed>, image: seq<Byte>, m: nat)
    requires |code| == p.codeLen && |image| == p.Len() && m < |AllFixes(p, ds)|
    requires AllResolvable(site, AllFixes(p, ds)) && AllFit(Fixes(p, site, AllFixes(p, ds)), p.Len())
    requires SortedDelayed(AllFixes(p, ds))
    ensures var d := AllFixes(p, ds)[m];
      Resolvable(site, d.target) &&
      Holds(FinalImage(p, site, code, ds, image), d.Location(),
            Bytes(Formula(d.relocation, Address(p, site, d.target), site.BlockBase() + d.Location()),
              d.relocation.Width()))
  {
    hide Address, FieldBytes, Resolvable, TrampolineDelayed, BaseImage, WriteAll, AllFixes, Plan.Len;
    var all := AllFixes(p, ds);
    FixesApart(p, site, all);
    WriteAllHolds(BaseImage(p, code, image), Fixes(p, site, all), m);
    FixIsFormula(p, site, all[m]);
  }

  /** The constant of a wide hole. */
  lemma {:induction false} ConstantOf(e: Emission, n: nat, i: nat)
    requires i < n <= |e.relocs| && HoleIdsOk(e, n) && HoleIdsOk(e, i) && IsWide(e, i)
    ensures |Constants(e, i)| < |Constants(e, n)| && e.relocs[i].id < |e.args.holes|
    ensures Constants(e, n)[|Constants(e, i)|] == e.args.holes[e.relocs[i].id]
    decreases n
  {
    if i < n - 1 {
      ConstantOf(e, n - 1, i);
    }
  }

  lemma {:induction false} AllConstantsOf(lib: Library, log: seq<Emission>, k: nat, c: nat)
    requires AllWellFormed(lib, log) && k < |log| && HoleIdsOk(log[k], |log[k].relocs|)
    requires c < |Constants(log[k], |log[k].relocs|)|
    ensures |AllConstants(lib, log[..k])| + c < |AllConstants(lib, log)|
    ensures AllConstants(lib, log)[|AllConstants(lib, log[..k])| + c] == Constants(log[k], |log[k].relocs|)[c]
    decreases |log|
  {
    hide RelocationsOk, TailOk, Constants;
    var n := |log| - 1;
    if k < n {
      assert log[..n][..k] == log[..k] && log[..n][k] == log[k];
      AllConstantsOf(lib, log[..n], k, c);
    }
  }

  lemma WideConstant(lib: Library, log: seq<Emission>, code: seq<Byte>, k: nat, i: nat)
    requires ClosedLog(lib, log, code) && k < |log| && i < |log[k].relocs| && IsWide(log[k], i) && IdsOk(lib, log[k])
    ensures var c := FateOf(lib, log[k], i);
      && c.Later? && c.target.Constant? && c.target.index < |AllConstants(lib, log)|
      && log[k].relocs[i].id < |log[k].args.holes|
      && AllConstants(lib, log)[c.target.index] == log[k].args.holes[log[k].relocs[i].id]
  {
    hide AllDone, RelocationsOk, TailOk, AllConstants, Constants;
    HoleIds(lib, log[k]);
    assert HoleIdsOk(log[k], i);
    ConstantOf(log[k], |log[k].relocs|, i);
    AllConstantsOf(lib, log, k, |Constants(log[k], i)|);
  }

  lemma RuntimeId(lib: Library, e: Emission, i: nat)
    requires i < |e.relocs| && IdsOk(lib, e) && FateOf(lib, e, i).Later? && FateOf(lib, e, i).target.RuntimeSymbol?
    ensures FateOf(lib, e, i).target.symbol == e.relocs[i].id
  {
  }

  lemma DeferredLinked(lib: Library, log: seq<Emission>, code: seq<Byte>, p: Plan, site: Site, image: seq<Byte>,
                       k: nat, i: nat)
    requires LinkReady(lib, log, code, p, site, image)
    requires k < |log| && i < |log[k].relocs| && IdsOk(lib, log[k]) && IsDeferred(lib, log, k, i)
    ensures FieldLinked(lib, FinalImage(p, site, code, AllDeferred(lib, log), image), log[k], EndOf(log, |code|, k),
        i, p, site)
  {
    hide AllDone, AllWellFormed, AllDeferred, FateOf, TrampolineDelayed, Resolvable, Address, Bytes, EndOf,
         AllConstants, Plan.TrampolineAt, Plan.Len, FinalImage, Holds, Fixes, AllFit, Formula, RelocationsOk, TailOk,
         IsWide, IdsOk, Symbols;
    var e, own := log[k], AllDeferred(lib, log);
    FixesReady(lib, log, code, p, site);
    var m := AllDeferredHas(lib, log, k, i);
    FixHolds(p, site, code, own, image, m);
    DeferredInLog(lib, log, code, k, i);
    if IsWide(e, i) {
      WideConstant(lib, log, code, k, i);
    }
    if FateOf(lib, e, i).target.RuntimeSymbol? {
      RuntimeId(lib, e, i);
      SymbolsSpec(own);
      assert own[m].target == RuntimeSymbol(e.relocs[i].id);
    }
  }

  lemma DeferredInLog(lib: Library, log: seq<Emission>, code: seq<Byte>, k: nat, i: nat)
    requires ClosedLog(lib, log, code) && IsDeferred(lib, log, k, i)
    ensures log[k].start + log[k].relocs[i].End() <= EndOf(log, |code|, k)
  {
    hide AllWellFormed, AllDone, IsDeferred, EndOf;
    DeferredWithin(lib, log, code, k, i);
  }

  lemma FieldDoneOf(lib: Library, log: seq<Emission>, code: seq<Byte>, k: nat, i: nat)
    requires ClosedLog(lib, log, code) && k < |log| && i < |log[k].relocs|
    ensures IdsOk(lib, log[k]) && FieldDone(lib, code, log[k], EndOf(log, |code|, k), i)
    ensures IsNext(lib, log[k], i) ==> log[k].relocs[i].relative
    ensures FateOf(lib, log[k], i).Now? ==> !log[k].relocs[i].relative
  {
    hide FateOf, FieldDone, EndOk, InField, IdOk, TailOk, EndOf;
  }

  /** A field that is not deferred has its final value already: the formula for it. */
  lemma EarlyBytes(lib: Library, e: Emission, end: nat, i: nat, p: Plan, site: Site)
    requires i < |e.relocs| && IdsOk(lib, e)
    requires IsNext(lib, e, i) || FateOf(lib, e, i).Now?
    requires IsNext(lib, e, i) ==> e.relocs[i].relative
    requires FateOf(lib, e, i).Now? ==> !e.relocs[i].relative
    ensures var (r, place) := (e.relocs[i], e.start + e.relocs[i].offset);
      Bytes(Formula(r, SymbolOf(lib, e, end, i, p, site), site.BlockBase() + place), r.Width())
      == FieldBytes(r, Wrap(match FateOf(lib, e, i) case Now(v) => v case Later(_) => end - place))
  {
    hide FateOf, Bytes, Wrap;
    var (r, place) := (e.relocs[i], e.start + e.relocs[i].offset);
    match FateOf(lib, e, i)
    case Now(v) => WrapSum(v, r.addend);
    case Later(_) => WrapSum(end - place, r.addend);
  }

  lemma EarlyLinked(lib: Library, log: seq<Emission>, code: seq<Byte>, p: Plan, site: Site, image: seq<Byte>, k: nat,
                    i: nat)
    requires LinkReady(lib, log, code, p, site, image)
    requires k < |log| && i < |log[k].relocs| && IdsOk(lib, log[k]) && !IsDeferred(lib, log, k, i)
    ensures FieldLinked(lib, FinalImage(p, site, code, AllDeferred(lib, log), image), log[k], EndOf(log, |code|, k),
        i, p, site)
  {
    hide AllDone, AllWellFormed, AllDeferred, FateOf, TrampolineDelayed, Resolvable, Address, Bytes, EndOf,
         AllConstants, Plan.TrampolineAt, Plan.Len, FinalImage, Holds, Fixes, AllFit, Formula, RelocationsOk, TailOk,
         IdsOk, Symbols, SymbolOf, FieldBytes, Wrap, Plan.Ok;
    var (e, end) := (log[k], EndOf(log, |code|, k));
    FieldDoneOf(lib, log, code, k, i);
    NotWide(lib, e, i);
    if !(IsNext(lib, e, i) && end <= e.start + e.relocs[i].offset) {
      EarlyBytes(lib, e, end, i, p, site);
      FieldThere(lib, log, code, p, site, image, k, i,
                 Bytes(Formula(e.relocs[i], SymbolOf(lib, e, end, i, p, site),
                   site.BlockBase() + (e.start + e.relocs[i].offset)), e.relocs[i].Width()));
    }
  }

  lemma NotWide(lib: Library, e: Emission, i: nat)
    requires i < |e.relocs| && IdsOk(lib, e) && (FateOf(lib, e, i).Now? || IsNext(lib, e, i))
    ensures !IsWide(e, i)
  {
  }

  // ----- the theorem -----

  lemma StencilIsLinked(lib: Library, log: seq<Emission>, code: seq<Byte>, p: Plan, site: Site, image: seq<Byte>,
                        k: nat)
    requires LinkReady(lib, log, code, p, site, image)
    requires k < |log| && WellFormed(lib, log[k])
    ensures StencilLinked(lib, FinalImage(p, site, code, AllDeferred(lib, log), image), log[k], EndOf(log, |code|, k),
        p, site)
  {
    hide AllDeferred, FateOf, TrampolineDelayed, Resolvable, Address, Bytes, EndOf, AllConstants, Plan.TrampolineAt,
         Plan.Len, FinalImage, Fixes, AllFit, RelocationsOk, TailOk, EndOk, FieldDone, InField, FieldLinked,
         IsDeferred;
    var (e, end) := (log[k], EndOf(log, |code|, k));
    OkIds(lib, e);
    EndWithin(lib, log, code, k);
    PlanBounds(p);
    assert Done(lib, code, e, end);
    forall j | 0 <= j < end - e.start && !InField(e, j)
      ensures FinalImage(p, site, code, AllDeferred(lib, log), image)[e.start + j] == e.bytes[j] {
      ByteThere(lib, log, code, p, site, image, k, j);
    }
    forall i | 0 <= i < |e.relocs|
      ensures FieldLinked(lib, FinalImage(p, site, code, AllDeferred(lib, log), image), e, end, i, p, site) {
      if IsDeferred(lib, log, k, i) {
        DeferredLinked(lib, log, code, p, site, image, k, i);
      } else {
        EarlyLinked(lib, log, code, p, site, image, k, i);
      }
    }
  }

  lemma ByteThere(lib: Library, log: seq<Emission>, code: seq<Byte>, p: Plan, site: Site, image: seq<Byte>, k: nat,
                  j: nat)
    requires LinkReady(lib, log, code, p, site, image)
    requires k < |log| && !InField(log[k], j) && log[k].start + j < EndOf(log, |code|, k) <= |code| <= p.Len()
    ensures FinalImage(p, site, code, AllDeferred(lib, log), image)[log[k].start + j] == code[log[k].start + j]
  {
    hide AllDone, AllWellFormed, AllDeferred, TrampolineDelayed, Resolvable, Address, FieldBytes, EndOf,
         AllConstants, Plan.TrampolineAt, Plan.Len, BaseImage, WriteAll, InField, Fixes;
    var x := log[k].start + j;
    var fixes := Fixes(p, site, AllFixes(p, AllDeferred(lib, log)));
    var base := BaseImage(p, code, image);
    HoldsExtended(code, Copies(p.trampoline, |p.symbols|), 0, code);
    BaseCode(p, code, image, 0, code);
    assert base[x] == base[0..|code|][x];
    forall m | 0 <= m < |fixes| ensures !fixes[m].Covers(x) {
      FixesMissByte(lib, log, code, p, site, k, j, m);
    }
    WriteAllElsewhere(base, fixes, x);
  }

  /** The trampolines and the pool. */
  lemma TrampolineIsLinked(lib: Library, log: seq<Emission>, code: seq<Byte>, p: Plan, site: Site, image: seq<Byte>,
                           t: nat)
    requires LinkReady(lib, log, code, p, site, image)
    requires t < |p.symbols|
    ensures TrampolineLinked(lib, FinalImage(p, site, code, AllDeferred(lib, log), image), t, p, site)
  {
    hide AllDone, AllWellFormed, AllDeferred, TrampolineDelayed, Resolvable, Address, Bytes, EndOf, AllConstants,
         Plan.TrampolineAt, Plan.Len, FinalImage, Fixes, AllFit, Holds, Formula, Plan.SlotAt, Symbols, Plan.Ok;
    PlanBounds(p);
    TrampolineBounds(p, t);
    forall j | 0 <= j < |p.trampoline| && !(exists i :: 0 <= i < |p.trampolineRelocs| && HoleZeroAt(p, i, j))
      ensures FinalImage(p, site, code, AllDeferred(lib, log), image)[p.TrampolineAt(t) + j] == p.trampoline[j] {
      TrampolineByte(lib, log, code, p, site, image, t, j);
    }
    forall i | 0 <= i < |p.trampolineRelocs| && IsHoleZero(p.trampolineRelocs[i])
      ensures var (at, r) := (p.TrampolineAt(t), p.trampolineRelocs[i]);
        Holds(FinalImage(p, site, code, AllDeferred(lib, log), image), at + r.offset,
              Bytes(Formula(r, site.BlockBase() + p.SlotAt(|p.constants| + t), site.BlockBase() + at + r.offset),
                r.Width())) {
      TrampolineField(lib, log, code, p, site, image, t, i);
    }
  }

  lemma TrampolineField(lib: Library, log: seq<Emission>, code: seq<Byte>, p: Plan, site: Site, image: seq<Byte>,
                        t: nat, i: nat)
    requires LinkReady(lib, log, code, p, site, image)
    requires t < |p.symbols| && i < |p.trampolineRelocs| && IsHoleZero(p.trampolineRelocs[i])
    ensures var (at, r) := (p.TrampolineAt(t), p.trampolineRelocs[i]);
      Holds(FinalImage(p, site, code, AllDeferred(lib, log), image), at + r.offset,
            Bytes(Formula(r, site.BlockBase() + p.SlotAt(|p.constants| + t), site.BlockBase() + at + r.offset),
              r.Width()))
  {
    hide AllDone, AllWellFormed, AllDeferred, TrampolineDelayed, Bytes, EndOf, AllConstants, Plan.TrampolineAt,
         Plan.Len, FinalImage, Fixes, AllFit, Holds, Formula, Plan.SlotAt;
    var own := AllDeferred(lib, log);
    FixesReady(lib, log, code, p, site);
    var m := TrampolineHas(p, |p.symbols|, t, i);
    assert AllFixes(p, own)[|own| + m] == TrampolineDelayed(p, |p.symbols|)[m];
    FixHolds(p, site, code, own, image, |own| + m);
  }

  lemma TrampolineByte(lib: Library, log: seq<Emission>, code: seq<Byte>, p: Plan, site: Site, image: seq<Byte>,
                       t: nat, j: nat)
    requires LinkReady(lib, log, code, p, site, image)
    requires t < |p.symbols| && j < |p.trampoline|
    requires !(exists i :: 0 <= i < |p.trampolineRelocs| && HoleZeroAt(p, i, j))
    requires p.TrampolineAt(t) + j < p.Len()
    ensures FinalImage(p, site, code, AllDeferred(lib, log), image)[p.TrampolineAt(t) + j] == p.trampoline[j]
  {
    hide AllDone, AllWellFormed, AllDeferred, TrampolineDelayed, Resolvable, Address, FieldBytes, EndOf,
         AllConstants, Plan.TrampolineAt, Plan.Len, BaseImage, WriteAll, Fixes, HoleZeroAt;
    var x := p.TrampolineAt(t) + j;
    var fixes := Fixes(p, site, AllFixes(p, AllDeferred(lib, log)));
    var base := BaseImage(p, code, image);
    BaseTrampoline(p, code, image, t);
    assert base[x] == base[p.TrampolineAt(t)..p.TrampolineAt(t) + |p.trampoline|][j];
    forall m | 0 <= m < |fixes| ensures !fixes[m].Covers(x) {
      FixesMissTrampoline(lib, log, code, p, site, t, j, m);
    }
    WriteAllElsewhere(base, fixes, x);
  }

  lemma FixesMissTrampoline(lib: Library, log: seq<Emission>, code: seq<Byte>, p: Plan, site: Site, t: nat, j: nat,
                            m: nat)
    requires ClosedLog(lib, log, code) && PlanShape(lib, log, code, p) && AllResolvable(site, AllDeferred(lib, log))
    requires AllResolvable(site, AllFixes(p, AllDeferred(lib, log))) && m < |AllFixes(p, AllDeferred(lib, log))|
    requires t < |p.symbols| && j < |p.trampoline|
    requires !(exists i :: 0 <= i < |p.trampolineRelocs| && HoleZeroAt(p, i, j))
    ensures !Fixes(p, site, AllFixes(p, AllDeferred(lib, log)))[m].Covers(p.TrampolineAt(t) + j)
  {
    hide AllDone, AllWellFormed, AllDeferred, TrampolineDelayed, Resolvable, Address, FieldBytes, EndOf,
         AllConstants, Plan.TrampolineAt;
    var own := AllDeferred(lib, log);
    FixIsFormula(p, site, AllFixes(p, own)[m]);
    TrampolineBounds(p, t);
    if m < |own| {
      FixesReady(lib, log, code, p, site);
    } else {
      var t', i := TrampolineFrom(p, |p.symbols|, m - |own|);
      TrampolineFieldElsewhere(p, t, j, t', i);
    }
  }

  lemma TrampolineFieldElsewhere(p: Plan, t: nat, j: nat, t': nat, i: nat)
    requires p.Ok() && t < |p.symbols| && t' < |p.symbols| && j < |p.trampoline| && i < |p.trampolineRelocs|
    requires IsHoleZero(p.trampolineRelocs[i]) && !HoleZeroAt(p, i, j)
    ensures var d := p.TrampolineAt(t') + p.trampolineRelocs[i].offset;
      !(d <= p.TrampolineAt(t) + j < d + p.trampolineRelocs[i].Width())
  {
    hide Plan.TrampolineAt;
    assert p.trampolineRelocs[i].End() <= |p.trampoline|;
    if t < t' {
      TrampolinesOrdered(p, t, t');
    } else if t' < t {
      TrampolinesOrdered(p, t', t);
    }
  }

  lemma TrampolinesOrdered(p: Plan, t: nat, t': nat)
    requires t < t'
    ensures p.TrampolineAt(t) + |p.trampoline| <= p.TrampolineAt(t')
  {
    NextMultiple(|p.trampoline|, t);
    MultiplesOrdered(|p.trampoline|, t + 1, t');
  }

  lemma PoolIsLinked(lib: Library, log: seq<Emission>, code: seq<Byte>, p: Plan, site: Site, image: seq<Byte>)
    requires LinkReady(lib, log, code, p, site, image)
    ensures PoolLinked(FinalImage(p, site, code, AllDeferred(lib, log), image), p)
  {
    hide AllDone, AllWellFormed, AllDeferred, TrampolineDelayed, Resolvable, Address, Bytes, EndOf, AllConstants,
         Plan.TrampolineAt, Plan.Len, BaseImage, WriteAll, Fixes, Holds, Plan.PoolBase, Plan.Values, FieldBytes;
    PlanBounds(p);
    FixesReady(lib, log, code, p, site);
    var fixes := Fixes(p, site, AllFixes(p, AllDeferred(lib, log)));
    forall i | 0 <= i < |p.Values()|
      ensures Holds(FinalImage(p, site, code, AllDeferred(lib, log), image), p.SlotAt(i),
          Bytes(p.Values()[i], WORD_BYTES)) {
      BaseSlot(p, code, image, i);
      forall m | 0 <= m < |fixes| ensures Apart(Write(p.SlotAt(i), Bytes(p.Values()[i], WORD_BYTES)), fixes[m]) {
        FixIsFormula(p, site, AllFixes(p, AllDeferred(lib, log))[m]);
      }
      WriteAllKeeps(BaseImage(p, code, image), fixes, Write(p.SlotAt(i), Bytes(p.Values()[i], WORD_BYTES)));
    }
  }

  lemma AllSupplied(lib: Library, image: seq<Byte>, p: Plan)
    requires Supplied(lib, p) && PoolLinked(image, p)
    ensures forall t :: 0 <= t < |p.symbols| ==> TrampolineSupplied(lib, image, t, p)
  {
    hide Holds, Bytes, Plan.SlotAt, IsLongJump;
    forall t | 0 <= t < |p.symbols| ensures TrampolineSupplied(lib, image, t, p) {
      assert p.Values()[|p.constants| + t] == p.addresses[t];
    }
  }

  /** Every stencil of a linked block, every trampoline and every pool slot is as it should be. */
  lemma LinkingCorrect(lib: Library, log: seq<Emission>, code: seq<Byte>, p: Plan, site: Site, image: seq<Byte>)
    requires ClosedLog(lib, log, code) && PlanOf(lib, log, code, p) && |image| == p.Len()
    requires AllResolvable(site, AllDeferred(lib, log))
    ensures AllResolvable(site, AllFixes(p, AllDeferred(lib, log)))
    ensures AllFit(Fixes(p, site, AllFixes(p, AllDeferred(lib, log))), p.Len())
    ensures Linked(lib, log, |code|, FinalImage(p, site, code, AllDeferred(lib, log), image), p, site)
  {
    FixesReady(lib, log, code, p, site);
    hide AllDeferred, TrampolineDelayed, Resolvable, Address, FieldBytes, EndOf, AllConstants, Plan.TrampolineAt,
         Plan.Len, FinalImage, AllFit, Fixes, AllDone, StencilLinked, TrampolineLinked, PoolLinked, RelocationsOk,
         TailOk, Symbols, Plan.Ok;
    forall k | 0 <= k < |log|
      ensures StencilLinked(lib, FinalImage(p, site, code, AllDeferred(lib, log), image), log[k],
          EndOf(log, |code|, k), p, site) {
      StencilIsLinked(lib, log, code, p, site, image, k);
    }
    forall t | 0 <= t < |p.symbols|
      ensures TrampolineLinked(lib, FinalImage(p, site, code, AllDeferred(lib, log), image), t, p, site) {
      TrampolineIsLinked(lib, log, code, p, site, image, t);
    }
    PoolIsLinked(lib, log, code, p, site, image);
    AllSupplied(lib, FinalImage(p, site, code, AllDeferred(lib, log), image), p);
  }
}
