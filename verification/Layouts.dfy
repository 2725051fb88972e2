/** Where the parts of a finished block go, and what is written there
    (`PatchBlock::finalize_into` in `src/patch.rs`). */
module Layouts {
  import opened Wrappers
  import opened Words
  import opened Buffers
  import opened Relocations
  import opened Stencils
  import opened Emissions

  const WORD_BYTES: nat := 8

  function AlignUp(n: nat): (r: nat)
    ensures n <= r < n + WORD_BYTES && r % WORD_BYTES == 0
  {
    (n + WORD_BYTES - 1) / WORD_BYTES * WORD_BYTES
  }

  /** The distinct runtime symbols that relocations wait for, in order of their first occurrence. */
  function Symbols(ds: seq<Delayed>): seq<nat> {
    if ds == [] then []
    else
      var (before, last) := (Symbols(ds[..|ds| - 1]), ds[|ds| - 1].target);
      if last.RuntimeSymbol? && last.symbol !in before then before + [last.symbol] else before
  }

  predicate Distinct(s: seq<nat>) {
    forall i, j :: 0 <= i < j < |s| ==> s[i] != s[j]
  }

  ghost predicate Awaited(ds: seq<Delayed>, s: nat) {
    exists k :: 0 <= k < |ds| && ds[k].target == RuntimeSymbol(s)
  }

  lemma AwaitedSnoc(ds: seq<Delayed>, s: nat)
    requires ds != []
    ensures Awaited(ds, s) <==> Awaited(ds[..|ds| - 1], s) || ds[|ds| - 1].target == RuntimeSymbol(s)
  {
    var init := ds[..|ds| - 1];
    if Awaited(ds, s) {
      var k :| 0 <= k < |ds| && ds[k].target == RuntimeSymbol(s);
      assert k < |init| ==> init[k].target == RuntimeSymbol(s);
    }
    if Awaited(init, s) {
      var k :| 0 <= k < |init| && init[k].target == RuntimeSymbol(s);
      assert ds[k].target == RuntimeSymbol(s);
    }
  }

  /** Each symbol occurs once, and exactly those occur that some relocation waits for. */
  lemma {:induction false} SymbolsSpec(ds: seq<Delayed>)
    ensures Distinct(Symbols(ds))
    ensures forall s :: s in Symbols(ds) <==> Awaited(ds, s)
  {
    if ds != [] {
      hide Awaited;
      SymbolsSpec(ds[..|ds| - 1]);
      forall s ensures s in Symbols(ds) <==> Awaited(ds, s) {
        AwaitedSnoc(ds, s);
      }
    }
  }

  function IndexOf(s: seq<nat>, x: nat): (i: nat)
    requires x in s
    ensures i < |s| && s[i] == x
  {
    if s[|s| - 1] == x then |s| - 1 else IndexOf(s[..|s| - 1], x)
  }

  // ----- the long jump -----

  /** The long jump of the library, as it is selected for the largest word. */
  function LongJump(lib: Library): Option<Stencil>
    requires LongJumpTable(lib)
  {
    match Selection(lib.longJump, [], [], [WORD - 1])
    case None => None
    case Some(s) => Some(s.stencil)
  }

  ghost predicate LongJumpTable(lib: Library) {
    && FamilyOk(lib.longJump) && lib.longJump.ins == 0 && lib.longJump.outs == 0 && lib.longJump.holes == 1
    && TableIndex([], [], lib.longJump.maxRegs, false) < |lib.longJump.stencils|
    && EntryOk(lib.longJump, lib.longJump.stencils[TableIndex([], [], lib.longJump.maxRegs, false)])
  }

  // ----- the parts of a block -----

  /** A block is its code, then a trampoline for each runtime symbol, then, aligned, a pool of words. */
  datatype Plan = Plan(codeLen: nat, trampoline: seq<Byte>, trampolineRelocs: seq<Relocation>, symbols: seq<nat>,
      constants: seq<Word>, addresses: seq<Word>)
  {
    function Values(): seq<Word> {
      constants + addresses
    }

    function TrampolineAt(t: nat): nat {
      codeLen + t * |trampoline|
    }

    function PoolBase(): nat {
      if Values() == [] then TrampolineAt(|symbols|) else AlignUp(TrampolineAt(|symbols|))
    }

    function SlotAt(i: nat): nat {
      PoolBase() + i * WORD_BYTES
    }

    function Len(): nat {
      SlotAt(|Values()|)
    }

    /** Each symbol has a slot; the fields of the trampoline are in order and lie inside it. */
    predicate Ok() {
      && |addresses| == |symbols|
      && (forall i :: 0 <= i < |trampolineRelocs| ==>
            trampolineRelocs[i].FieldOk()
            && trampolineRelocs[i].End() <= |trampoline|)
      && (forall i, j :: 0 <= i < j < |trampolineRelocs| ==> trampolineRelocs[i].End() <= trampolineRelocs[j].offset)
    }
  }

  /** The trampoline is the long jump, and the pool has the addresses of the symbols. */
  ghost predicate Supplied(lib: Library, p: Plan) {
    && |p.addresses| == |p.symbols|
    && (forall t :: 0 <= t < |p.symbols| ==>
          p.symbols[t] < |lib.rtSymbols|
          && p.addresses[t] == lib.rtSymbols[p.symbols[t]])
    && (p.symbols != [] ==> IsLongJump(lib, p.trampoline, p.trampolineRelocs))
  }

  /** The code and the relocations of the stencil that is selected as long jump. */
  ghost predicate IsLongJump(lib: Library, code: seq<Byte>, relocs: seq<Relocation>) {
    && LongJumpTable(lib) && LongJump(lib).Some?
    && var s := LongJump(lib).value;
       && InLibrary(lib, lib.longJump, s) && code == StencilCode(lib, s)
       && relocs == ListAt(lib.longJump.relocationData, s.relocationIndex)
  }

  /** Copies of the trampoline, one after the other. */
  function Copies(bytes: seq<Byte>, n: nat): (r: seq<Byte>)
    ensures |r| == n * |bytes|
  {
    if n == 0 then [] else Copies(bytes, n - 1) + bytes
  }

  /** The bytes of the pool. */
  function PoolBytes(values: seq<Word>): (r: seq<Byte>)
    ensures |r| == |values| * WORD_BYTES
  {
    if values == [] then [] else PoolBytes(values[..|values| - 1]) + Bytes(values[|values| - 1], WORD_BYTES)
  }

  lemma PlanBounds(p: Plan)
    ensures p.codeLen <= p.TrampolineAt(|p.symbols|) <= p.PoolBase() <= p.Len()
    ensures p.Len() == p.PoolBase() + |PoolBytes(p.Values())|
    ensures p.TrampolineAt(|p.symbols|) == p.codeLen + |Copies(p.trampoline, |p.symbols|)|
  {
  }

  lemma TrampolineBounds(p: Plan, t: nat)
    requires t < |p.symbols|
    ensures p.codeLen <= p.TrampolineAt(t)
    ensures p.TrampolineAt(t + 1) == p.TrampolineAt(t) + |p.trampoline| <= p.TrampolineAt(|p.symbols|)
  {
    NextMultiple(|p.trampoline|, t);
    MultiplesOrdered(|p.trampoline|, t + 1, |p.symbols|);
  }

  /** The block before the deferred relocations are resolved; `image` is what the memory held. */
  function BaseImage(p: Plan, code: seq<Byte>, image: seq<Byte>): (r: seq<Byte>)
    requires |code| == p.codeLen && |image| == p.Len()
    ensures |r| == |image|
  {
    PlanBounds(p);
    Written(Written(image, 0, code + Copies(p.trampoline, |p.symbols|)), p.PoolBase(), PoolBytes(p.Values()))
  }

  // ----- what the base image holds -----

  lemma {:induction false} CopyHolds(bytes: seq<Byte>, n: nat, t: nat)
    requires t < n
    ensures Holds(Copies(bytes, n), t * |bytes|, bytes)
    decreases n
  {
    NextMultiple(|bytes|, n - 1);
    if t < n - 1 {
      CopyHolds(bytes, n - 1, t);
      HoldsExtended(Copies(bytes, n - 1), bytes, t * |bytes|, bytes);
    }
  }

  lemma HoldsExtended(a: seq<Byte>, b: seq<Byte>, at: nat, bytes: seq<Byte>)
    requires Holds(a, at, bytes)
    ensures Holds(a + b, at, bytes)
  {
    assert (a + b)[at..at + |bytes|] == a[at..at + |bytes|];
  }

  lemma {:induction false} PoolHolds(values: seq<Word>, i: nat)
    requires i < |values|
    ensures Holds(PoolBytes(values), i * WORD_BYTES, Bytes(values[i], WORD_BYTES))
  {
    var init := values[..|values| - 1];
    if i < |init| {
      PoolHolds(init, i);
      HoldsExtended(PoolBytes(init), Bytes(values[|init|], WORD_BYTES), i * WORD_BYTES, Bytes(values[i], WORD_BYTES));
    }
  }

  /** Part of what a write leaves. */
  lemma WrittenPart(dest: seq<Byte>, at: nat, bytes: seq<Byte>, inner: nat, part: seq<Byte>)
    requires at + |bytes| <= |dest| && Holds(bytes, inner, part)
    ensures Holds(Written(dest, at, bytes), at + inner, part)
  {
    var r := Written(dest, at, bytes);
    assert r[at..at + |bytes|] == bytes;
    assert r[at + inner..at + inner + |part|] == r[at..at + |bytes|][inner..inner + |part|];
  }

  lemma BaseSlot(p: Plan, code: seq<Byte>, image: seq<Byte>, i: nat)
    requires |code| == p.codeLen && |image| == p.Len() && i < |p.Values()|
    ensures Holds(BaseImage(p, code, image), p.SlotAt(i), Bytes(p.Values()[i], WORD_BYTES))
  {
    hide Bytes, PoolBytes, Copies, Written, Plan.PoolBase, AlignUp, Plan.Values;
    PlanBounds(p);
    PoolHolds(p.Values(), i);
    WrittenPart(Written(image, 0, code + Copies(p.trampoline, |p.symbols|)), p.PoolBase(), PoolBytes(p.Values()),
                i * WORD_BYTES, Bytes(p.Values()[i], WORD_BYTES));
  }

  /** What lies before the pool. */
  lemma BaseCode(p: Plan, code: seq<Byte>, image: seq<Byte>, at: nat, part: seq<Byte>)
    requires |code| == p.codeLen && |image| == p.Len()
    requires Holds(code + Copies(p.trampoline, |p.symbols|), at, part)
    ensures Holds(BaseImage(p, code, image), at, part)
  {
    hide Bytes, PoolBytes, Copies, Written, Plan.PoolBase, AlignUp, Plan.Values;
    PlanBounds(p);
    var all := code + Copies(p.trampoline, |p.symbols|);
    WrittenPart(image, 0, all, at, part);
    WrittenKeeps(Written(image, 0, all), Write(p.PoolBase(), PoolBytes(p.Values())), Write(at, part));
  }

  lemma BaseTrampoline(p: Plan, code: seq<Byte>, image: seq<Byte>, t: nat)
    requires |code| == p.codeLen && |image| == p.Len() && t < |p.symbols|
    ensures Holds(BaseImage(p, code, image), p.TrampolineAt(t), p.trampoline)
  {
    hide BaseImage;
    CopyHolds(p.trampoline, |p.symbols|, t);
    HoldsBehind(code, Copies(p.trampoline, |p.symbols|), t * |p.trampoline|, p.trampoline);
    BaseCode(p, code, image, p.TrampolineAt(t), p.trampoline);
  }

  lemma HoldsBehind(a: seq<Byte>, b: seq<Byte>, at: nat, bytes: seq<Byte>)
    requires Holds(b, at, bytes)
    ensures Holds(a + b, |a| + at, bytes)
  {
    assert (a + b)[|a| + at..|a| + at + |bytes|] == b[at..at + |bytes|];
  }

  // ----- the relocations of the trampolines -----

  /** The fields of a trampoline at `at` that get the address of pool slot `index`. */
  function HoleFields(relocs: seq<Relocation>, n: nat, at: nat, index: nat): seq<Delayed>
    requires n <= |relocs|
  {
    if n == 0 then []
    else
      var r := relocs[n - 1];
      HoleFields(relocs, n - 1, at, index)
      + if r.kind == Hole && r.id == 0 then [Delayed(at, r, Constant(index))] else []
  }

  /** The deferred relocations of the first `n` trampolines. */
  function TrampolineDelayed(p: Plan, n: nat): seq<Delayed>
    requires n <= |p.symbols|
  {
    if n == 0 then []
    else
      var own := HoleFields(p.trampolineRelocs, |p.trampolineRelocs|, p.TrampolineAt(n - 1), |p.constants| + n - 1);
      TrampolineDelayed(p, n - 1) + own
  }

  lemma {:induction false} HoleFieldFrom(relocs: seq<Relocation>, n: nat, at: nat, index: nat, m: nat) returns (i: nat)
    requires n <= |relocs| && m < |HoleFields(relocs, n, at, index)|
    ensures i < n && relocs[i].kind == Hole && relocs[i].id == 0
    ensures HoleFields(relocs, n, at, index)[m] == Delayed(at, relocs[i], Constant(index))
  {
    if m < |HoleFields(relocs, n - 1, at, index)| {
      i := HoleFieldFrom(relocs, n - 1, at, index, m);
    } else {
      i := n - 1;
    }
  }

  lemma {:induction false} HoleFieldHas(relocs: seq<Relocation>, n: nat, at: nat, index: nat, i: nat) returns (m: nat)
    requires i < n <= |relocs| && relocs[i].kind == Hole && relocs[i].id == 0
    ensures m < |HoleFields(relocs, n, at, index)|
    ensures HoleFields(relocs, n, at, index)[m] == Delayed(at, relocs[i], Constant(index))
  {
    if i == n - 1 {
      m := |HoleFields(relocs, n - 1, at, index)|;
    } else {
      m := HoleFieldHas(relocs, n - 1, at, index, i);
    }
  }

  lemma {:induction false} TrampolineFrom(p: Plan, n: nat, m: nat) returns (t: nat, i: nat)
    requires n <= |p.symbols| && m < |TrampolineDelayed(p, n)|
    ensures t < n && i < |p.trampolineRelocs| && p.trampolineRelocs[i].kind == Hole && p.trampolineRelocs[i].id == 0
    ensures TrampolineDelayed(p, n)[m] == Delayed(p.TrampolineAt(t), p.trampolineRelocs[i], Constant(|p.constants| + t))
  {
    hide Plan.TrampolineAt;
    var before := |TrampolineDelayed(p, n - 1)|;
    if m < before {
      t, i := TrampolineFrom(p, n - 1, m);
    } else {
      t := n - 1;
      i := HoleFieldFrom(p.trampolineRelocs, |p.trampolineRelocs|, p.TrampolineAt(t), |p.constants| + t, m - before);
    }
  }

  lemma {:induction false} TrampolineHas(p: Plan, n: nat, t: nat, i: nat) returns (m: nat)
    requires t < n <= |p.symbols| && i < |p.trampolineRelocs| && p.trampolineRelocs[i].kind == Hole
    requires p.trampolineRelocs[i].id == 0
    ensures m < |TrampolineDelayed(p, n)|
    ensures TrampolineDelayed(p, n)[m] == Delayed(p.TrampolineAt(t), p.trampolineRelocs[i], Constant(|p.constants| + t))
    decreases n
  {
    hide Plan.TrampolineAt;
    if t == n - 1 {
      m := HoleFieldHas(p.trampolineRelocs, |p.trampolineRelocs|, p.TrampolineAt(t), |p.constants| + t, i);
      m := |TrampolineDelayed(p, n - 1)| + m;
    } else {
      m := TrampolineHas(p, n - 1, t, i);
    }
  }

  lemma {:induction false} HoleFieldsSorted(relocs: seq<Relocation>, n: nat, at: nat, index: nat)
    requires n <= |relocs|
    requires forall i, j :: 0 <= i < j < |relocs| ==> relocs[i].End() <= relocs[j].offset
    ensures SortedDelayed(HoleFields(relocs, n, at, index))
    ensures forall m :: 0 <= m < |HoleFields(relocs, n, at, index)| ==>
      at <= HoleFields(relocs, n, at, index)[m].Location()
        && HoleFields(relocs, n, at, index)[m].End() <= at + relocs[n - 1].End()
  {
    if n > 0 {
      HoleFieldsSorted(relocs, n - 1, at, index);
      if n > 1 {
        assert relocs[n - 2].End() <= relocs[n - 1].offset;
      }
    }
  }

  /** The deferred relocations of trampolines are sorted and lie inside them. */
  lemma {:induction false} TrampolineSorted(p: Plan, n: nat)
    requires p.Ok() && n <= |p.symbols|
    ensures SortedDelayed(TrampolineDelayed(p, n))
    ensures forall m :: 0 <= m < |TrampolineDelayed(p, n)| ==>
      && p.codeLen <= TrampolineDelayed(p, n)[m].Location() && TrampolineDelayed(p, n)[m].End() <= p.TrampolineAt(n)
      && TrampolineDelayed(p, n)[m].relocation.FieldOk()
  {
    hide Plan.TrampolineAt;
    if n > 0 {
      TrampolineSorted(p, n - 1);
      TrampolineBounds(p, n - 1);
      HoleFieldsSorted(p.trampolineRelocs, |p.trampolineRelocs|, p.TrampolineAt(n - 1), |p.constants| + n - 1);
      var (before, own) := (TrampolineDelayed(p, n - 1),
          HoleFields(p.trampolineRelocs, |p.trampolineRelocs|, p.TrampolineAt(n - 1), |p.constants| + n - 1));
      forall m | 0 <= m < |own| ensures own[m].relocation.FieldOk() && own[m].End() <= p.TrampolineAt(n) {
        var i := HoleFieldFrom(p.trampolineRelocs, |p.trampolineRelocs|, p.TrampolineAt(n - 1), |p.constants| + n - 1,
            m);
        assert p.trampolineRelocs[i].FieldOk();
      }
      SortedConcat(before, own, p.TrampolineAt(n - 1));
    }
  }

  lemma SortedConcat(a: seq<Delayed>, b: seq<Delayed>, mid: nat)
    requires SortedDelayed(a) && SortedDelayed(b)
    requires forall m :: 0 <= m < |a| ==> a[m].End() <= mid
    requires forall m :: 0 <= m < |b| ==> mid <= b[m].Location()
    ensures SortedDelayed(a + b)
  {
    var all := a + b;
    forall k, l | 0 <= k < l < |all| ensures all[k].End() <= all[l].Location() {
    }
  }

  // ----- resolution -----

  /** The address of the mapping, where in it the block starts, and where all blocks start. */
  datatype Site = Site(base: nat, start: nat, offsets: seq<nat>)
  {
    function BlockBase(): nat {
      base + start
    }
  }

  predicate Resolvable(site: Site, target: DelayedTarget) {
    match target
    case Block(b) => b < |site.offsets|
    case AfterStencil => false
    case _ => true
  }

  /** The address a deferred relocation waits for. */
  function Address(p: Plan, site: Site, target: DelayedTarget): nat
    requires Resolvable(site, target)
  {
    match target
    case Block(b) => site.base + site.offsets[b]
    case Constant(index) => site.BlockBase() + p.SlotAt(index)
    case RuntimeSymbol(s) => if s in p.symbols then site.BlockBase() + p.TrampolineAt(IndexOf(p.symbols, s)) else 0
  }

  predicate AllResolvable(site: Site, ds: seq<Delayed>) {
    forall m :: 0 <= m < |ds| ==> Resolvable(site, ds[m].target)
  }

  function Fix(p: Plan, site: Site, d: Delayed): Write
    requires Resolvable(site, d.target)
  {
    Write(d.Location(), FieldBytes(d.relocation, d.Resolve(site.BlockBase(), Address(p, site, d.target))))
  }

  function Fixes(p: Plan, site: Site, ds: seq<Delayed>): (r: seq<Write>)
    requires AllResolvable(site, ds)
    ensures |r| == |ds| && forall m :: 0 <= m < |r| ==> r[m] == Fix(p, site, ds[m])
  {
    seq(|ds|, m requires 0 <= m < |ds| => Fix(p, site, ds[m]))
  }

  /** A resolved field holds the value of the relocation formula. */
  lemma FixIsFormula(p: Plan, site: Site, d: Delayed)
    requires Resolvable(site, d.target)
    ensures Fix(p, site, d) == Write(d.Location(),
      Bytes(Formula(d.relocation, Address(p, site, d.target), site.BlockBase() + d.Location()), d.relocation.Width()))
    ensures Fix(p, site, d).End() == d.End()
  {
    ResolveIsFormula(d, site.BlockBase(), Address(p, site, d.target));
  }

  lemma FixesApart(p: Plan, site: Site, ds: seq<Delayed>)
    requires AllResolvable(site, ds) && SortedDelayed(ds)
    ensures forall k, l :: 0 <= k < l < |ds| ==> Apart(Fixes(p, site, ds)[k], Fixes(p, site, ds)[l])
  {
    hide Address, FieldBytes, Delayed.Resolve;
    forall k, l | 0 <= k < l < |ds| ensures Apart(Fixes(p, site, ds)[k], Fixes(p, site, ds)[l]) {
      assert ds[k].End() <= ds[l].Location();
    }
  }

  lemma FixesFit(p: Plan, site: Site, ds: seq<Delayed>, size: nat)
    requires AllResolvable(site, ds) && forall m :: 0 <= m < |ds| ==> ds[m].End() <= size
    ensures AllFit(Fixes(p, site, ds), size)
  {
    hide Address, FieldBytes, Delayed.Resolve;
  }
}
