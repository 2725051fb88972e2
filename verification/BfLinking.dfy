/** Linking compiled brainf**k: what can keep the blocks from being linked (`finalize` in `examples/bf/src/main.rs`). */
module BfLinking {
  import opened Wrappers
  import opened Errors
  import opened Locations
  import opened BfTarget
  import opened BfCorrectness
  import opened Emissions
  import opened PatchLogs
  import opened Layouts
  import opened Patch
  import opened Programs

  /** The blocks have been built by emitting the stencils of the graph, with the same jumps, and have ended. */
  ghost predicate Built(blocks: seq<PatchBlock>, graph: Graph)
    reads blocks
  {
    && |blocks| == |graph|
    && forall k: nat :: k < |graph| ==> BlockBuilt(blocks[k], graph[k])
  }

  ghost predicate BlockBuilt(b: PatchBlock, code: seq<Ins>)
    reads b
  {
    && b.ended && |b.log| == |code|
    && forall i: nat :: i < |code| ==> b.log[i].args.jumps == code[i].jumps
  }

  /** The block refers to a runtime symbol that only a trampoline reaches, and there is no long jump to make one of. */
  ghost predicate LacksLongJump(b: PatchBlock)
    requires BlockOk(b)
    reads b
  {
    Symbols(b.relocations) != [] && LongJump(b.library) == None
  }

  /** The linker's verdict on block `k` of compiled code. */
  lemma CompiledVerdict(source: string, host: Host, blocks: seq<PatchBlock>, k: nat, site: Site)
    requires BlocksOk(blocks) && Built(blocks, Compiled(source, host)) && k < |blocks|
    requires |site.offsets| == |blocks|
    ensures BlockOk(blocks[k])
    ensures blocks[k].Verdict(site) == if LacksLongJump(blocks[k]) then Err(StencilNotFound) else Ok(())
  {
    hide Compiled, Symbols, LongJump, Linkable, LongJumpOk, LogOk, AllDeferred, AllConstants, Pending, AllResolvable,
         AllWellFormed;
    CompiledLinkable(source, host);
    var (graph, b) := (Compiled(source, host), blocks[k]);
    assert BlockOk(b) && BlockBuilt(b, graph[k]);
    JumpsGiven(graph, k, b.log);
    KnownOf(b.library, b.log, b.code);
    JumpsLink(b.library, b.log, site);
  }

  /** The stencils of a block of a linkable graph are given no jump that cannot be linked. */
  lemma JumpsGiven(graph: Graph, k: nat, log: seq<Emission>)
    requires Linkable(graph) && k < |graph| && |log| == |graph[k]|
    requires forall i: nat :: i < |log| ==> log[i].args.jumps == graph[k][i].jumps
    ensures log != [] ==> NextStencil !in log[|log| - 1].args.jumps
    ensures forall i: nat, c: nat :: i < |log| && JumpTarget.Target(c) in log[i].args.jumps ==> c < |graph|
  {
    if log != [] {
      assert JumpsOk(graph, k, |log| - 1);
    }
    forall i: nat, c: nat | i < |log| && JumpTarget.Target(c) in log[i].args.jumps ensures c < |graph| {
      assert JumpsOk(graph, k, i);
    }
  }

  /** Linking compiled code fails in no other way than for want of a long jump. */
  lemma CompiledLinks(source: string, host: Host, blocks: seq<PatchBlock>, base: nat, k: nat, error: PatchError)
    requires BlocksOk(blocks) && Built(blocks, Compiled(source, host))
    requires k < |blocks| && FirstError(blocks, base, k, error)
    ensures error == StencilNotFound && LacksLongJump(blocks[k])
  {
    hide Compiled, Lens, PatchBlock.Verdict, LacksLongJump, BlockOk, Built;
    CompiledVerdict(source, host, blocks, k, SiteOf(base, Lens(blocks), k));
  }
}
