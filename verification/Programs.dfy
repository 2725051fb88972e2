/** Linking all blocks of a program (`ProgramBlocks` in `src/patch.rs`, `finalize_into` in `src/managed.rs`). */
module Programs {
  import opened Wrappers
  import opened Errors
  import opened Words
  import opened Emissions
  import opened Layouts
  import opened LinkedBlocks
  import opened Patch

  function Sum(lens: seq<nat>): nat {
    if lens == [] then 0 else Sum(lens[..|lens| - 1]) + lens[|lens| - 1]
  }

  /** The sums of what comes before each element. */
  function Offsets(lens: seq<nat>): (r: seq<nat>)
    ensures |r| == |lens| && forall i :: 0 <= i < |r| ==> r[i] == Sum(lens[..i])
  {
    seq(|lens|, i requires 0 <= i < |lens| => Sum(lens[..i]))
  }

  lemma SumStep(lens: seq<nat>, i: nat)
    requires i < |lens|
    ensures Sum(lens[..i + 1]) == Sum(lens[..i]) + lens[i]
  {
    assert lens[..i + 1][..i] == lens[..i];
  }

  /** Different blocks have disjoint ranges, all within the total. */
  lemma {:induction false} RangesDisjoint(lens: seq<nat>, i: nat, j: nat)
    requires i < j <= |lens|
    ensures Sum(lens[..i]) + lens[i] <= Sum(lens[..j]) <= Sum(lens)
    decreases |lens| - i, j - i
  {
    if i < j - 1 {
      RangesDisjoint(lens, i, j - 1);
      SumStep(lens, j - 1);
    } else {
      SumStep(lens, i);
    }
    if j < |lens| {
      RangesDisjoint(lens, j, |lens|);
    }
    assert lens[..|lens|] == lens;
  }

  /** The offsets start at zero, and each range ends where the next one starts; the last one ends with the total. */
  predicate Adjacent(starts: seq<nat>, lens: seq<nat>, total: nat) {
    && |starts| == |lens|
    && (lens == [] ==> total == 0)
    && (lens != [] ==> starts[0] == 0 && total == starts[|lens| - 1] + lens[|lens| - 1])
    && forall k :: 0 <= k < |lens| - 1 ==> starts[k + 1] == starts[k] + lens[k]
  }

  lemma OffsetsAdjacent(lens: seq<nat>)
    ensures Adjacent(Offsets(lens), lens, Sum(lens))
  {
    hide Sum;
    forall k | 0 <= k < |lens| ensures Sum(lens[..k + 1]) == Sum(lens[..k]) + lens[k] {
      SumStep(lens, k);
    }
    NoLens();
    assert lens[..|lens|] == lens && lens[..0] == [];
  }

  lemma NoLens()
    ensures Sum([]) == 0
  {
  }

  /** `from_lens`: replaces the lengths by offsets, in place, and returns their sum. */
  method FromLens(lens: array<nat>) returns (len: nat)
    modifies lens
    ensures lens[..] == Offsets(old(lens[..])) && len == Sum(old(lens[..]))
    ensures Adjacent(lens[..], old(lens[..]), len)
  {
    hide Adjacent, Sum;
    ghost var before := lens[..];
    OffsetsAdjacent(before);
    NoLens();
    if lens.Length == 0 {
      return 0;
    }
    var last := lens[0];
    lens[0] := 0;
    SumStep(before, 0);
    var i := 1;
    while i < lens.Length
      invariant 1 <= i <= lens.Length
      invariant last == Sum(before[..i])
      invariant forall k :: 0 <= k < i ==> lens[k] == Offsets(before)[k]
      invariant forall k :: i <= k < lens.Length ==> lens[k] == before[k]
    {
      SumStep(before, i);
      var next := last + lens[i];
      lens[i] := last;
      last := next;
      i := i + 1;
    }
    assert before[..i] == before;
    return last;
  }

  /** The blocks are in order, and can be laid down once they have ended. */
  ghost predicate BlocksOk(blocks: seq<PatchBlock>)
    reads blocks
  {
    forall k :: 0 <= k < |blocks| ==> BlockOk(blocks[k])
  }

  ghost predicate BlockOk(b: PatchBlock)
    reads b
  {
    b.Valid() && LongJumpOk(b.library) && |b.constants| + |Symbols(b.relocations)| <= CONSTANT_LIMIT
  }

  ghost function Lens(blocks: seq<PatchBlock>): (r: seq<nat>)
    requires BlocksOk(blocks)
    reads blocks
    ensures |r| == |blocks|
  {
    seq(|blocks|, k requires 0 <= k < |blocks| && BlockOk(blocks[k]) reads blocks => blocks[k].Layout().Len())
  }

  ghost predicate AllEnded(blocks: seq<PatchBlock>)
    reads blocks
  {
    forall k :: 0 <= k < |blocks| ==> blocks[k].ended
  }

  /** Where block `k` lies, and where all blocks start. */
  ghost function SiteOf(base: nat, lens: seq<nat>, k: nat): Site
    requires k < |lens|
  {
    Site(base, Offsets(lens)[k], Offsets(lens))
  }

  ghost predicate BlockLinked(b: PatchBlock, memory: seq<Byte>, site: Site)
    requires BlockOk(b) && site.start + b.Layout().Len() <= |memory|
    reads b
  {
    Linked(b.library, b.log, |b.code|, memory[site.start..site.start + b.Layout().Len()], b.Layout(), site)
  }

  method MeasureAll(blocks: seq<PatchBlock>) returns (r: Result<array<nat>, PatchError>)
    requires BlocksOk(blocks)
    ensures r.Err? ==> r.error == NotEnded && !AllEnded(blocks)
    ensures r.Ok? ==> fresh(r.value) && AllEnded(blocks) && r.value[..] == Lens(blocks)
  {
    hide PatchBlock.Valid, LongJumpOk, PatchBlock.Layout, Symbols, Plan.Len;
    ghost var measured := Lens(blocks);
    var lens := new nat[|blocks|];
    var k := 0;
    while k < |blocks|
      invariant 0 <= k <= |blocks| && fresh(lens)
      invariant forall i :: 0 <= i < k ==> blocks[i].ended
      invariant forall i :: 0 <= i < k ==> lens[i] == measured[i]
    {
      assert BlockOk(blocks[k]);
      var len := blocks[k].Measure();
      match len {
        case None => return Err(NotEnded);
        case Some(l) => lens[k] := l;
      }
      k := k + 1;
    }
    return Ok(lens);
  }

  /** Block `k` lies within the memory. */
  lemma BlockFits(lens: seq<nat>, k: nat)
    requires k < |lens|
    ensures Offsets(lens)[k] + lens[k] <= Sum(lens)
    ensures forall i :: 0 <= i < k ==> Offsets(lens)[i] + lens[i] <= Offsets(lens)[k]
  {
    forall i | 0 <= i < k ensures Offsets(lens)[i] + lens[i] <= Offsets(lens)[k] {
      RangesDisjoint(lens, i, k);
    }
    RangesDisjoint(lens, k, |lens|);
    assert lens[..|lens|] == lens;
  }

  predicate BlockFit(lens: seq<nat>, k: nat, total: nat)
    requires k < |lens|
  {
    Offsets(lens)[k] + lens[k] <= total
  }

  /** The first `n` blocks are linked. */
  ghost predicate LinkedUpTo(blocks: seq<PatchBlock>, base: nat, n: nat, memory: seq<Byte>)
    requires BlocksOk(blocks) && n <= |blocks|
    reads blocks
  {
    forall k :: 0 <= k < n ==>
      && BlockFit(Lens(blocks), k, |memory|)
      && blocks[k].Verdict(SiteOf(base, Lens(blocks), k)).Ok?
      && BlockLinked(blocks[k], memory, SiteOf(base, Lens(blocks), k))
  }

  /** Block `k` is the first that cannot be linked. */
  ghost predicate FirstError(blocks: seq<PatchBlock>, base: nat, k: nat, error: PatchError)
    requires BlocksOk(blocks) && k < |blocks|
    reads blocks
  {
    && blocks[k].Verdict(SiteOf(base, Lens(blocks), k)) == Err(error)
    && forall i :: 0 <= i < k ==> blocks[i].Verdict(SiteOf(base, Lens(blocks), i)).Ok?
  }

  /** Laying down a block keeps all earlier blocks linked. */
  lemma StaysLinked(blocks: seq<PatchBlock>, base: nat, n: nat, before: seq<Byte>, after: seq<Byte>)
    requires BlocksOk(blocks) && n < |blocks| && LinkedUpTo(blocks, base, n, before) && |after| == |before|
    requires var start := SiteOf(base, Lens(blocks), n).start; start <= |before| && after[..start] == before[..start]
    ensures LinkedUpTo(blocks, base, n, after)
  {
    hide PatchBlock.Valid, LongJumpOk, PatchBlock.Layout, Symbols, Plan.Len, PatchBlock.Verdict, Linked;
    var lens := Lens(blocks);
    BlockFits(lens, n);
    hide Lens, SiteOf, BlockLinked, BlockOk;
    forall k | 0 <= k < n ensures BlockLinked(blocks[k], after, SiteOf(base, lens, k)) {
      KeptLinked(blocks, base, n, k, before, after);
    }
  }

  lemma KeptLinked(blocks: seq<PatchBlock>, base: nat, n: nat, k: nat, before: seq<Byte>, after: seq<Byte>)
    requires BlocksOk(blocks) && k < n < |blocks| && |after| == |before| && BlockFit(Lens(blocks), k, |before|)
    requires BlockLinked(blocks[k], before, SiteOf(base, Lens(blocks), k))
    requires var start := SiteOf(base, Lens(blocks), n).start; start <= |before| && after[..start] == before[..start]
    ensures BlockLinked(blocks[k], after, SiteOf(base, Lens(blocks), k))
  {
    hide PatchBlock.Valid, LongJumpOk, PatchBlock.Layout, Symbols, Plan.Len, Linked, Sum;
    var (lens, site, start) := (Lens(blocks), SiteOf(base, Lens(blocks), k), SiteOf(base, Lens(blocks), n).start);
    BlockFits(lens, n);
    SamePart(before, after, start, site.start, site.start + lens[k]);
  }

  lemma SamePart(before: seq<Byte>, after: seq<Byte>, start: nat, lo: nat, hi: nat)
    requires lo <= hi <= start <= |before| && start <= |after| && after[..start] == before[..start]
    ensures after[lo..hi] == before[lo..hi]
  {
    assert after[lo..hi] == after[..start][lo..hi] && before[lo..hi] == before[..start][lo..hi];
  }

  lemma OneMore(blocks: seq<PatchBlock>, base: nat, n: nat, memory: seq<Byte>)
    requires BlocksOk(blocks) && n < |blocks| && LinkedUpTo(blocks, base, n, memory)
    requires BlockFit(Lens(blocks), n, |memory|) && blocks[n].Verdict(SiteOf(base, Lens(blocks), n)).Ok?
    requires BlockLinked(blocks[n], memory, SiteOf(base, Lens(blocks), n))
    ensures LinkedUpTo(blocks, base, n + 1, memory)
  {
    hide PatchBlock.Valid, LongJumpOk, PatchBlock.Layout, Symbols, Plan.Len, PatchBlock.Verdict, BlockLinked, Lens;
  }

  /** Measures all blocks, lays them down one after the other, and links them: in the end every block is linked,
      so that no block disturbs another.  The error is the one of the first block that has one. */
  method FinalizeAll(blocks: seq<PatchBlock>, base: nat) returns (r: Result<array<Byte>, PatchError>)
    requires BlocksOk(blocks)
    ensures !AllEnded(blocks) ==> r == Err(NotEnded)
    ensures AllEnded(blocks) && r.Err? ==> exists k :: 0 <= k < |blocks| && FirstError(blocks, base, k, r.error)
    ensures r.Ok? ==> AllEnded(blocks) && r.value.Length == Sum(Lens(blocks))
    ensures r.Ok? ==> LinkedUpTo(blocks, base, |blocks|, r.value[..])
    ensures r.Ok? && blocks != [] ==> EntryLinked(blocks, base, r.value[..])
  {
    hide PatchBlock.Valid, LongJumpOk, PatchBlock.Layout, Symbols, Plan.Len, PatchBlock.Verdict, LinkedUpTo,
         BlockLinked, Offsets, Sum, FirstError, EntryLinked, Adjacent, BlockOk, Lens;
    ghost var measured := Lens(blocks);
    var lens := MeasureAll(blocks);
    if lens.Err? {
      return Err(lens.error);
    }
    var offsets := lens.value;
    var total := FromLens(offsets);
    var starts := offsets[..];
    var memory := new Byte[total];
    NoneLinked(blocks, base, memory[..]);
    var k := 0;
    while k < |blocks|
      invariant 0 <= k <= |blocks| && fresh(memory) && memory.Length == total
      invariant LinkedUpTo(blocks, base, k, memory[..])
    {
      var done := PlaceNext(blocks, base, k, memory, starts);
      if done.Err? {
        return Err(done.error);
      }
      k := k + 1;
    }
    if blocks != [] {
      EntryFirst(blocks, base, memory[..]);
    }
    return Ok(memory);
  }

  method PlaceNext(blocks: seq<PatchBlock>, base: nat, k: nat, memory: array<Byte>,
                   starts: seq<nat>) returns (r: Result<(), PatchError>)
    requires BlocksOk(blocks) && k < |blocks| && starts == Offsets(Lens(blocks)) && memory.Length == Sum(Lens(blocks))
    requires LinkedUpTo(blocks, base, k, memory[..])
    modifies memory
    ensures r.Err? ==> FirstError(blocks, base, k, r.error)
    ensures r.Ok? ==> LinkedUpTo(blocks, base, k + 1, memory[..])
  {
    hide PatchBlock.Valid, LongJumpOk, PatchBlock.Layout, Symbols, Plan.Len, PatchBlock.Verdict, LinkedUpTo,
         BlockLinked, Offsets, Sum, FirstError;
    ghost var measured := Lens(blocks);
    assert BlockOk(blocks[k]);
    BlockFits(measured, k);
    ghost var before := memory[..];
    r := blocks[k].FinalizeInto(memory, base, starts[k], starts);
    if r.Err? {
      ErrorFirst(blocks, base, k, before, r.error);
    } else {
      StaysLinked(blocks, base, k, before, memory[..]);
      JustLinked(blocks[k], memory, SiteOf(base, measured, k));
      OneMore(blocks, base, k, memory[..]);
    }
  }

  /** The entry block is linked at the first byte. */
  ghost predicate EntryLinked(blocks: seq<PatchBlock>, base: nat, memory: seq<Byte>)
    requires BlocksOk(blocks) && blocks != []
    reads blocks
  {
    var b := blocks[0];
    && BlockOk(b) && b.Layout().Len() <= |memory|
    && Linked(b.library, b.log, |b.code|, memory[..b.Layout().Len()], b.Layout(), Site(base, 0, Offsets(Lens(blocks))))
  }

  lemma EntryFirst(blocks: seq<PatchBlock>, base: nat, memory: seq<Byte>)
    requires BlocksOk(blocks) && blocks != [] && LinkedUpTo(blocks, base, |blocks|, memory)
    ensures EntryLinked(blocks, base, memory)
  {
    hide PatchBlock.Valid, LongJumpOk, PatchBlock.Layout, Symbols, Plan.Len, PatchBlock.Verdict, Linked, Offsets, Sum;
    OffsetsAdjacent(Lens(blocks));
    assert BlockLinked(blocks[0], memory, SiteOf(base, Lens(blocks), 0));
    assert BlockFit(Lens(blocks), 0, |memory|);
    assert memory[0..blocks[0].Layout().Len()] == memory[..blocks[0].Layout().Len()];
  }

  lemma NoneLinked(blocks: seq<PatchBlock>, base: nat, memory: seq<Byte>)
    requires BlocksOk(blocks)
    ensures LinkedUpTo(blocks, base, 0, memory)
  {
  }

  lemma ErrorFirst(blocks: seq<PatchBlock>, base: nat, k: nat, memory: seq<Byte>, error: PatchError)
    requires BlocksOk(blocks) && k < |blocks| && LinkedUpTo(blocks, base, k, memory)
    requires blocks[k].Verdict(SiteOf(base, Lens(blocks), k)) == Err(error)
    ensures FirstError(blocks, base, k, error)
  {
    hide PatchBlock.Valid, LongJumpOk, PatchBlock.Layout, Symbols, Plan.Len, PatchBlock.Verdict, BlockLinked, Lens,
         SiteOf;
  }

  lemma JustLinked(b: PatchBlock, memory: array<Byte>, site: Site)
    requires BlockOk(b) && site.start + b.Layout().Len() <= memory.Length
    requires Linked(b.library, b.log, |b.code|, memory[site.start..site.start + b.Layout().Len()], b.Layout(), site)
    ensures BlockLinked(b, memory[..], site)
  {
    hide PatchBlock.Valid, LongJumpOk, PatchBlock.Layout, Symbols, Plan.Len, Linked;
    assert memory[..][site.start..site.start + b.Layout().Len()] == memory[site.start..site.start + b.Layout().Len()];
  }
}
