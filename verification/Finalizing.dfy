/** Laying a finished block down in memory (the body of `PatchBlock::finalize_into` in `src/patch.rs`). */
module Finalizing {
  import opened Wrappers
  import opened Errors
  import opened Words
  import opened Buffers
  import opened Relocations
  import opened Stencils
  import opened Emissions
  import opened Layouts

  /** What lies outside `len` bytes from `start` is the same. */
  twostate predicate Outside(memory: array<Byte>, start: nat, len: nat)
    requires start + len <= memory.Length
    reads memory
  {
    memory[..start] == old(memory[..start]) && memory[start + len..] == old(memory[start + len..])
  }

  /** Copies `bytes` to `at` of the block at `start`. */
  method CopyInto(memory: array<Byte>, start: nat, len: nat, at: nat, bytes: seq<Byte>)
    requires start + len <= memory.Length && at + |bytes| <= len
    modifies memory
    ensures memory[start..start + len] == Written(old(memory[start..start + len]), at, bytes)
    ensures Outside(memory, start, len)
  {
    forall i | 0 <= i < |bytes| {
      memory[start + at + i] := bytes[i];
    }
  }

  lemma WrittenTwice(image: seq<Byte>, at: nat, a: seq<Byte>, b: seq<Byte>)
    requires at + |a| + |b| <= |image|
    ensures Written(Written(image, at, a), at + |a|, b) == Written(image, at, a + b)
  {
    var (l, r) := (Written(Written(image, at, a), at + |a|, b), Written(image, at, a + b));
    forall i | 0 <= i < |image| ensures l[i] == r[i] {
    }
    assert l == r;
  }

  lemma WrittenNothing(image: seq<Byte>, at: nat)
    requires at <= |image|
    ensures Written(image, at, []) == image
  {
  }

  /** The relocations of the long jump that take the address of its target, for a copy at `offset`. */
  method HoleRelocations(data: seq<Relocation>, first: nat, offset: nat, index: nat) returns (delayed: seq<Delayed>)
    requires first <= |data|
    ensures delayed == HoleFields(ListAt(data, first), |ListAt(data, first)|, offset, index)
  {
    ListAtBasics(data, first);
    ghost var list := ListAt(data, first);
    delayed := [];
    var k := first;
    while k < |data|
      invariant first <= k <= first + |list|
      invariant delayed == HoleFields(list, k - first, offset, index)
    {
      assert k - first < |list| ==> list[k - first] == data[k];
      if data[k].IsInvalid() {
        break;
      }
      if data[k].kind == Hole && data[k].id == 0 {
        delayed := delayed + [Delayed(offset, data[k], Constant(index))];
      }
      k := k + 1;
    }
  }

  /** The address of the trampoline of each symbol that has one. */
  ghost predicate TrampolineAddresses(p: Plan, blockBase: nat, n: nat, addresses: seq<nat>)
    requires n <= |p.symbols|
  {
    forall s :: 0 <= s < |addresses| ==>
      addresses[s] == if s in p.symbols[..n] then blockBase + p.TrampolineAt(IndexOf(p.symbols, s)) else 0
  }

  lemma NextAddress(p: Plan, blockBase: nat, n: nat, addresses: seq<nat>)
    requires n < |p.symbols| && Distinct(p.symbols) && p.symbols[n] < |addresses|
    requires TrampolineAddresses(p, blockBase, n, addresses)
    ensures TrampolineAddresses(p, blockBase, n + 1, addresses[p.symbols[n] := blockBase + p.TrampolineAt(n)])
  {
    hide Plan.TrampolineAt;
    assert p.symbols[..n + 1] == p.symbols[..n] + [p.symbols[n]];
    assert IndexOf(p.symbols, p.symbols[n]) == n;
  }

  /** Copies the long jump once for each symbol. */
  method LayTrampolines(memory: array<Byte>, start: nat, len: nat, blockBase: nat, lib: Library, longJump: Stencil,
                        symbols: seq<nat>, code: seq<Byte>,
                        constants: nat, ghost p: Plan, ghost image: seq<Byte>)
    returns (addresses: seq<nat>, delayed: seq<Delayed>, current: nat)
    requires InLibrary(lib, lib.longJump, longJump) && p.Ok() && p.codeLen == |code| && p.symbols == symbols
    requires |p.constants| == constants
    requires p.trampoline == StencilCode(lib, longJump)
    requires p.trampolineRelocs == ListAt(lib.longJump.relocationData, longJump.relocationIndex)
    requires Distinct(symbols) && (forall t :: 0 <= t < |symbols| ==> symbols[t] < |lib.rtSymbols|)
    requires constants + |symbols| <= CONSTANT_LIMIT
    requires len == p.Len() && start + len <= memory.Length && |image| == len && |code| <= len
    requires memory[start..start + len] == Written(image, 0, code)
    modifies memory
    ensures Outside(memory, start, len)
    ensures |code + Copies(p.trampoline, |symbols|)| <= len
    ensures memory[start..start + len] == Written(image, 0, code + Copies(p.trampoline, |symbols|))
    ensures |addresses| == |lib.rtSymbols| && TrampolineAddresses(p, blockBase, |symbols|, addresses)
    ensures delayed == TrampolineDelayed(p, |symbols|) && current == p.TrampolineAt(|symbols|)
  {
    hide Plan.TrampolineAt, Plan.Values, Plan.Len, Plan.PoolBase, Plan.SlotAt, Written, ListAt, TrampolineAddresses,
         HoleFields, Copies, Plan.Ok, Distinct, TrampolineDelayed, Wrap, PoolBytes;
    PlanBounds(p);
    addresses := seq(|lib.rtSymbols|, _ => 0);
    delayed := [];
    current := |code|;
    LayStart(p, blockBase, code, addresses);
    var t := 0;
    while t < |symbols|
      invariant 0 <= t <= |symbols| && current == p.TrampolineAt(t) == |code + Copies(p.trampoline, t)|
      invariant Outside(memory, start, len)
      invariant |code + Copies(p.trampoline, t)| <= len
      invariant memory[start..start + len] == Written(image, 0, code + Copies(p.trampoline, t))
      invariant |addresses| == |lib.rtSymbols| && TrampolineAddresses(p, blockBase, t, addresses)
      invariant delayed == TrampolineDelayed(p, t)
    {
      var offset := current;
      var stencilCode := StencilCode(lib, longJump);
      var next := current + |stencilCode|;
      TrampolineBounds(p, t);
      LayStep(p, code, image, t);
      CopyInto(memory, start, len, current, stencilCode);
      NextAddress(p, blockBase, t, addresses);
      addresses := addresses[symbols[t] := blockBase + offset];
      var own := HoleRelocations(lib.longJump.relocationData, longJump.relocationIndex, offset,
          (constants + t) % CONSTANT_LIMIT);
      delayed := delayed + own;
      DelayedStep(p, t);
      current := next;
      t := t + 1;
    }
  }

  lemma LayStep(p: Plan, code: seq<Byte>, image: seq<Byte>, t: nat)
    requires |code| == p.codeLen && t < |p.symbols| && |image| == p.Len()
    ensures |code + Copies(p.trampoline, t + 1)| <= |image|
    ensures |code + Copies(p.trampoline, t)| + |p.trampoline| == |code + Copies(p.trampoline, t + 1)|
        == p.TrampolineAt(t + 1)
    ensures Written(Written(image, 0, code + Copies(p.trampoline, t)), |code + Copies(p.trampoline, t)|, p.trampoline)
         == Written(image, 0, code + Copies(p.trampoline, t + 1))
  {
    hide Written, Plan.Len;
    PlanBounds(p);
    TrampolineBounds(p, t);
    assert code + Copies(p.trampoline, t) + p.trampoline == code + Copies(p.trampoline, t + 1);
    WrittenTwice(image, 0, code + Copies(p.trampoline, t), p.trampoline);
  }

  lemma DelayedStep(p: Plan, t: nat)
    requires t < |p.symbols|
    ensures TrampolineDelayed(p, t + 1) == TrampolineDelayed(p, t)
      + HoleFields(p.trampolineRelocs, |p.trampolineRelocs|, p.TrampolineAt(t), |p.constants| + t)
  {
  }

  lemma LayStart(p: Plan, blockBase: nat, code: seq<Byte>, addresses: seq<nat>)
    requires |code| == p.codeLen && forall s :: 0 <= s < |addresses| ==> addresses[s] == 0
    ensures TrampolineAddresses(p, blockBase, 0, addresses) && TrampolineDelayed(p, 0) == []
    ensures p.TrampolineAt(0) == |code| && code + Copies(p.trampoline, 0) == code
  {
  }

  /** Appends `words` to the pool behind the words `before`, with which the pool starts at `at`. */
  method LayWords(memory: array<Byte>, start: nat, len: nat, current: nat, words: seq<Word>, ghost at: nat,
                  ghost before: seq<Word>, ghost image: seq<Byte>)
    returns (next: nat)
    requires start + len <= memory.Length && |image| == len && at + |PoolBytes(before + words)| <= len
    requires current == at + |PoolBytes(before)| <= len
    requires memory[start..start + len] == Written(image, at, PoolBytes(before))
    modifies memory
    ensures Outside(memory, start, len)
    ensures memory[start..start + len] == Written(image, at, PoolBytes(before + words))
    ensures next == at + |PoolBytes(before + words)|
  {
    hide Written, Bytes;
    next := current;
    assert before + words[..0] == before;
    var i := 0;
    while i < |words|
      invariant 0 <= i <= |words| && next == at + |PoolBytes(before + words[..i])| <= len
      invariant Outside(memory, start, len)
      invariant memory[start..start + len] == Written(image, at, PoolBytes(before + words[..i]))
    {
      var bytes := Bytes(words[i], WORD_BYTES);
      ghost var (done, more) := (before + words[..i], before + words[..i + 1]);
      assert more == done + [words[i]] && more[..|done|] == done;
      WrittenTwice(image, at, PoolBytes(done), bytes);
      CopyInto(memory, start, len, next, bytes);
      next := next + |bytes|;
      i := i + 1;
    }
    assert before + words[..i] == before + words;
  }

  /** Writes the fields of all deferred relocations, up to the first whose block does not exist. */
  method ResolveAll(memory: array<Byte>, start: nat, len: nat, base: nat, blocks: seq<nat>, ds: seq<Delayed>,
                    addresses: seq<nat>, constantBase: nat, ghost p: Plan, ghost image: seq<Byte>)
    returns (r: Result<(), PatchError>)
    requires start + len <= memory.Length && memory[start..start + len] == image
    requires forall m :: 0 <= m < |ds| ==>
        ds[m].relocation.FieldOk() && ds[m].End() <= len
        && TargetKnown(ds[m].target, |addresses|)
    requires constantBase == p.PoolBase() && TrampolineAddresses(p, base + start, |p.symbols|, addresses)
    modifies memory
    ensures Outside(memory, start, len)
    ensures r == if AllResolvable(Site(base, start, blocks), ds) then Ok(()) else Err(UnresolvedBlockTarget)
    ensures r.Ok? ==>
      var fixes := Fixes(p, Site(base, start, blocks), ds);
      AllFit(fixes, len) && memory[start..start + len] == WriteAll(image, fixes)
  {
    hide Plan.TrampolineAt, Plan.PoolBase, Plan.Values, Written, WriteAll, FieldBytes, TrampolineAddresses, Address,
         IndexOf;
    ghost var site := Site(base, start, blocks);
    assert p.symbols[..|p.symbols|] == p.symbols;
    NoFixes(p, site, ds, image);
    var m := 0;
    while m < |ds|
      invariant 0 <= m <= |ds| && Outside(memory, start, len)
      invariant AllResolvable(site, ds[..m]) && AllFit(Fixes(p, site, ds[..m]), len)
      invariant memory[start..start + len] == WriteAll(image, Fixes(p, site, ds[..m]))
    {
      var d := ds[m];
      var target: nat;
      match d.target {
        case Block(b) =>
          if b >= |blocks| {
            assert !Resolvable(site, ds[m].target);
            return Err(UnresolvedBlockTarget);
          }
          target := base + blocks[b];
        case Constant(index) => target := base + start + constantBase + index * WORD_BYTES;
        case RuntimeSymbol(s) => target := addresses[s];
        case AfterStencil => assert false;
      }
      AddressIs(p, base, start, blocks, addresses, constantBase, d.target, target);
      NextFix(p, site, ds, m, image);
      CopyInto(memory, start, len, d.Location(), FieldBytes(d.relocation, d.Resolve(base + start, target)));
      m := m + 1;
    }
    assert ds[..m] == ds;
    return Ok(());
  }

  /** No jumps to a next stencil, and no runtime symbols that do not exist. */
  predicate TargetKnown(target: DelayedTarget, symbols: nat) {
    match target
    case AfterStencil => false
    case RuntimeSymbol(s) => s < symbols
    case _ => true
  }

  lemma AddressIs(p: Plan, base: nat, start: nat, blocks: seq<nat>, addresses: seq<nat>, constantBase: nat,
                  target: DelayedTarget, address: nat)
    requires constantBase == p.PoolBase() && TrampolineAddresses(p, base + start, |p.symbols|, addresses)
    requires TargetKnown(target, |addresses|) && Resolvable(Site(base, start, blocks), target)
    requires address == match target
      case Block(b) => base + blocks[b]
      case Constant(index) => base + start + constantBase + index * WORD_BYTES
      case RuntimeSymbol(s) => addresses[s]
    ensures address == Address(p, Site(base, start, blocks), target)
  {
    hide Plan.TrampolineAt, Plan.PoolBase;
    assert p.symbols[..|p.symbols|] == p.symbols;
  }

  lemma NoFixes(p: Plan, site: Site, ds: seq<Delayed>, image: seq<Byte>)
    ensures AllResolvable(site, ds[..0]) && AllFit(Fixes(p, site, ds[..0]), |image|)
    ensures WriteAll(image, Fixes(p, site, ds[..0])) == image
  {
    hide Address, FieldBytes;
  }

  lemma NextFix(p: Plan, site: Site, ds: seq<Delayed>, m: nat, image: seq<Byte>)
    requires m < |ds| && AllResolvable(site, ds[..m]) && AllFit(Fixes(p, site, ds[..m]), |image|)
    requires Resolvable(site, ds[m].target) && ds[m].End() <= |image|
    ensures AllResolvable(site, ds[..m + 1]) && AllFit(Fixes(p, site, ds[..m + 1]), |image|)
    ensures var fix := Fix(p, site, ds[m]);
      fix.End() <= |image| && WriteAll(image, Fixes(p, site, ds[..m + 1]))
        == Written(WriteAll(image, Fixes(p, site, ds[..m])), fix.at, fix.bytes)
  {
    hide Address, FieldBytes, Resolvable, Written, Fix, WriteAll, AllFit;
    FixIsFormula(p, site, ds[m]);
    ResolvableSnoc(site, ds, m);
    assert Fixes(p, site, ds[..m + 1]) == Fixes(p, site, ds[..m]) + [Fix(p, site, ds[m])];
    WriteSnoc(image, Fixes(p, site, ds[..m]), Fix(p, site, ds[m]));
  }

  lemma ResolvableSnoc(site: Site, ds: seq<Delayed>, m: nat)
    requires m < |ds| && AllResolvable(site, ds[..m]) && Resolvable(site, ds[m].target)
    ensures AllResolvable(site, ds[..m + 1])
  {
    hide Resolvable;
    var before, after := ds[..m], ds[..m + 1];
    assert after == before + [ds[m]];
  }

  /** Aligns the end of the trampolines and lays the pool down, if there is one. */
  method LayPool(memory: array<Byte>, start: nat, len: nat, current: nat, constants: seq<Word>, addresses: seq<Word>,
                 ghost p: Plan, ghost code: seq<Byte>, ghost image: seq<Byte>)
    returns (constantBase: nat)
    requires len == p.Len() && start + len <= memory.Length && |image| == len && |code| == p.codeLen
    requires current == p.TrampolineAt(|p.symbols|) && p.constants == constants && p.addresses == addresses
    requires |addresses| == |p.symbols|
    requires |code + Copies(p.trampoline, |p.symbols|)| <= len
    requires memory[start..start + len] == Written(image, 0, code + Copies(p.trampoline, |p.symbols|))
    modifies memory
    ensures Outside(memory, start, len)
    ensures constantBase == p.PoolBase() && memory[start..start + len] == BaseImage(p, code, image)
  {
    hide Written, Bytes, Plan.TrampolineAt, Copies, AlignUp;
    PlanBounds(p);
    ghost var before := Written(image, 0, code + Copies(p.trampoline, |p.symbols|));
    if constants == [] && addresses == [] {
      WrittenNothing(before, current);
      return current;
    }
    constantBase := AlignUp(current);
    assert constantBase == p.PoolBase();
    WrittenNothing(before, constantBase);
    PoolParts(constants, addresses);
    var next := LayWords(memory, start, len, constantBase, constants, constantBase, [], before);
    next := LayWords(memory, start, len, next, addresses, constantBase, constants, before);
  }

  lemma PoolParts(constants: seq<Word>, addresses: seq<Word>)
    ensures [] + constants == constants && PoolBytes([]) == []
    ensures |PoolBytes(constants)| <= |PoolBytes(constants + addresses)|
  {
  }
}
