/** From the macro to the runtime: expansion, symbol names, extraction and selection, as a whole
    (`crates/patchouly-macros/src/stencil.rs`, `crates/patchouly-build/src/extract.rs`,
    `crates/patchouly-core/src/stencils.rs`). */
module Pipeline {
  import opened Wrappers
  import opened Words
  import opened Locations
  import opened Relocations
  import opened Stencils
  import opened Permutations
  import N = Names
  import opened Extraction

  /** What the symbols of a family are made from. */
  datatype Macro = Macro(name: string, ins: nat, outs: nat, registers: nat, holes: nat)
  {
    predicate Ok() {
      0 < registers <= U16_LIMIT
    }

    /** The parser of symbols finds the name again. */
    predicate Findable() {
      N.NameOk(name)
    }

    function Symbol(t: seq<nat>, wide: bool): string
      requires |t| == ins + outs
    {
      N.FunctionName(name, t[..ins], t[ins..], wide)
    }

    predicate Wants(t: seq<nat>, wide: bool) {
      Wanted(t, wide, ins, outs, registers, holes)
    }
  }

  /** The symbol of an assignment is parsed back to it. */
  lemma SymbolParsed(m: Macro, t: seq<nat>, wide: bool)
    requires m.Ok() && m.Findable() && m.Wants(t, wide)
    ensures var p := N.ParsedFunction(m.Symbol(t, wide));
      && p.Some? && p.value.name == m.name && p.value.wide == wide
      && |p.value.inputs| == m.ins && |p.value.outputs| == m.outs && Bits(p.value.inputs + p.value.outputs) == t
  {
    hide N.NameOk, N.ParsedFunction, N.FunctionName, OutputsDistinct;
    var (a, b) := (t[..m.ins], t[m.ins..]);
    assert N.AllU16(a) && N.AllU16(b);
    N.NameRoundTrip(m.name, a, b, wide);
    var locations := N.FromDigits(a) + N.FromDigits(b);
    assert a + b == t;
    forall i | 0 <= i < |t| ensures IntoBits(locations[i]) == t[i] {
      assert locations[i] == FromBits(t[i]);
    }
    assert Bits(locations) == t;
  }

  /** Different assignments or widths have different symbols, whatever the name of the family is. */
  lemma SymbolsDiffer(m: Macro, t: seq<nat>, v: bool, u: seq<nat>, w: bool)
    requires m.Ok() && m.Wants(t, v) && m.Wants(u, w) && m.Symbol(t, v) == m.Symbol(u, w)
    ensures t == u && v == w
  {
    hide N.FunctionName, OutputsDistinct;
    N.StencilNamesDiffer(m.name, t[..m.ins], t[m.ins..], v, u[..m.ins], u[m.ins..], w);
    assert t == t[..m.ins] + t[m.ins..] && u == u[..m.ins] + u[m.ins..];
  }

  predicate AllDistinct(names: seq<string>) {
    forall i, j :: 0 <= i < j < |names| ==> names[i] != names[j]
  }

  ghost predicate IsSymbol(m: Macro, name: string) {
    exists t, wide :: m.Wants(t, wide) && |t| == m.ins + m.outs && name == m.Symbol(t, wide)
  }

  /** Symbols of the first assignments of an enumeration. */
  ghost predicate SymbolsOf(m: Macro, all: seq<seq<nat>>, names: seq<string>) {
    && AllDistinct(names)
    && forall n :: n in names <==> exists t, wide ::
         t in all && m.Wants(t, wide) && |t| == m.ins + m.outs
         && n == m.Symbol(t, wide)
  }

  /** `expand`: one function for each assignment, and a wide one if there are holes.  All symbols differ. */
  method Expand(m: Macro) returns (names: seq<string>)
    requires m.Ok()
    ensures AllDistinct(names)
    ensures forall n :: n in names <==> IsSymbol(m, n)
  {
    hide Macro.Ok, Macro.Symbol, Increasing, OutputsDistinct, AllDistinct;
    RegistersPositive(m);
    var all := Enumerate(m.ins, m.outs, m.registers);
    names := [];
    NoNames(m);
    var k := 0;
    while k < |all|
      invariant 0 <= k <= |all| && SymbolsOf(m, all[..k], names)
    {
      var t := all[k];
      assert all[k] in all;
      NewAssignment(all, k);
      ghost var before := names;
      names := names + [m.Symbol(t, false)];
      if m.holes > 0 {
        names := names + [m.Symbol(t, true)];
      }
      NamesStep(m, all[..k], t, before, names);
      assert all[..k + 1] == all[..k] + [t];
      k := k + 1;
    }
    assert all[..k] == all;
    AllNames(m, all, names);
  }

  lemma RegistersPositive(m: Macro)
    requires m.Ok()
    ensures m.registers > 0
  {
  }

  lemma NoNames(m: Macro)
    ensures SymbolsOf(m, [], [])
  {
  }

  lemma NewAssignment(all: seq<seq<nat>>, k: nat)
    requires Increasing(all) && k < |all|
    ensures all[k] !in all[..k]
  {
    hide Less;
    forall i | 0 <= i < k ensures all[i] != all[k] {
      assert Less(all[i], all[k]);
      LessIrreflexive(all[k]);
    }
  }

  lemma AllNames(m: Macro, all: seq<seq<nat>>, names: seq<string>)
    requires SymbolsOf(m, all, names) && forall t :: t in all <==> Assignment(t, m.ins, m.outs, m.registers)
    ensures AllDistinct(names) && forall n :: n in names <==> IsSymbol(m, n)
  {
    hide Macro.Symbol, Assignment, AllDistinct;
    forall n ensures n in names <==> IsSymbol(m, n) {
    }
  }

  lemma NamesStep(m: Macro, all: seq<seq<nat>>, t: seq<nat>, before: seq<string>, after: seq<string>)
    requires m.Ok() && SymbolsOf(m, all, before) && t !in all && Assignment(t, m.ins, m.outs, m.registers)
    requires after == before + [m.Symbol(t, false)] + if m.holes > 0 then [m.Symbol(t, true)] else []
    ensures SymbolsOf(m, all + [t], after)
  {
    hide Macro.Symbol, Macro.Ok, AllDistinct;
    forall wide | m.Wants(t, wide) ensures m.Symbol(t, wide) !in before {
      if m.Symbol(t, wide) in before {
        var u, w :| u in all && m.Wants(u, w) && |u| == m.ins + m.outs && m.Symbol(t, wide) == m.Symbol(u, w);
        SymbolsDiffer(m, t, wide, u, w);
      }
    }
    if m.holes > 0 && m.Symbol(t, false) == m.Symbol(t, true) {
      SymbolsDiffer(m, t, false, t, true);
    }
    DistinctStep(before, m.Symbol(t, false));
    if m.holes > 0 {
      DistinctStep(before + [m.Symbol(t, false)], m.Symbol(t, true));
    } else {
      assert after == before + [m.Symbol(t, false)];
    }
    StepMembers(m, all, t, before, after);
  }

  lemma DistinctStep(names: seq<string>, name: string)
    requires AllDistinct(names) && name !in names
    ensures AllDistinct(names + [name])
  {
  }

  lemma StepMembers(m: Macro, all: seq<seq<nat>>, t: seq<nat>, before: seq<string>, after: seq<string>)
    requires SymbolsOf(m, all, before) && Assignment(t, m.ins, m.outs, m.registers)
    requires after == before + [m.Symbol(t, false)] + if m.holes > 0 then [m.Symbol(t, true)] else []
    ensures forall n :: n in after <==> exists u, w ::
      u in all + [t] && m.Wants(u, w) && |u| == m.ins + m.outs
        && n == m.Symbol(u, w)
  {
    hide Macro.Symbol, AllDistinct, OutputsDistinct;
    forall n ensures n in after <==> exists u, w ::
      u in all + [t] && m.Wants(u, w) && |u| == m.ins + m.outs
        && n == m.Symbol(u, w) {
      if n in before {
        var u, w :| u in all && m.Wants(u, w) && |u| == m.ins + m.outs && n == m.Symbol(u, w);
        assert u in all + [t];
      } else if n in after {
        assert t in all + [t] && m.Wants(t, false) && (m.holes > 0 ==> m.Wants(t, true));
      }
      if u, w :| u in all + [t] && m.Wants(u, w) && |u| == m.ins + m.outs && n == m.Symbol(u, w) {
        if u in all {
          assert n in before;
        } else {
          assert n == m.Symbol(t, w) && (w ==> m.holes > 0);
        }
      }
    }
  }

  // ----- extraction -----

  /** A compiled function. */
  datatype Compiled = Compiled(symbol: string, codeStart: nat, codeLen: nat, relocations: seq<Relocation>)

  /** What the extractor reads from it. */
  function Extracted(c: Compiled): Function
    requires N.ParsedFunction(c.symbol).Some?
  {
    var p := N.ParsedFunction(c.symbol).value;
    Function(p.inputs, p.outputs, p.wide, c.codeStart, c.codeLen, c.relocations)
  }

  /** The objects contain the functions of the expansion, each once and in any order, and all with code. */
  ghost predicate CompiledFrom(m: Macro, objects: seq<Compiled>) {
    && (forall k :: 0 <= k < |objects| ==>
          IsSymbol(m, objects[k].symbol) && objects[k].codeLen > 0
          && NoneInvalid(objects[k].relocations))
    && (forall j, k :: 0 <= j < k < |objects| ==> objects[j].symbol != objects[k].symbol)
    && (forall n :: IsSymbol(m, n) ==> exists k :: 0 <= k < |objects| && objects[k].symbol == n)
  }

  lemma SymbolKnown(m: Macro, name: string) returns (t: seq<nat>, wide: bool)
    requires m.Ok() && m.Findable() && IsSymbol(m, name)
    ensures m.Wants(t, wide) && |t| == m.ins + m.outs && name == m.Symbol(t, wide) && N.ParsedFunction(name).Some?
    ensures var p := N.ParsedFunction(name).value;
      p.wide == wide && |p.inputs| == m.ins && |p.outputs| == m.outs && Bits(p.inputs + p.outputs) == t
  {
    hide Macro.Symbol, Macro.Ok, Macro.Findable, Macro.Wants;
    t, wide :| m.Wants(t, wide) && |t| == m.ins + m.outs && name == m.Symbol(t, wide);
    SymbolParsed(m, t, wide);
  }

  function ExtractedAll(m: Macro, objects: seq<Compiled>): (r: seq<Function>)
    requires forall k :: 0 <= k < |objects| ==> N.ParsedFunction(objects[k].symbol).Some?
    ensures |r| == |objects| && forall k :: 0 <= k < |r| ==> r[k] == Extracted(objects[k])
  {
    seq(|objects|, k requires 0 <= k < |objects| => Extracted(objects[k]))
  }

  lemma AllParsed(m: Macro, objects: seq<Compiled>)
    requires m.Ok() && m.Findable() && CompiledFrom(m, objects)
    ensures forall k :: 0 <= k < |objects| ==> N.ParsedFunction(objects[k].symbol).Some?
  {
    hide IsSymbol, N.ParsedFunction, Macro.Ok;
    forall k | 0 <= k < |objects| ensures N.ParsedFunction(objects[k].symbol).Some? {
      var t, wide := SymbolKnown(m, objects[k].symbol);
    }
  }

  /** The extractor finds the functions that the macro generated. */
  lemma ExtractionComplete(m: Macro, objects: seq<Compiled>)
    requires m.Ok() && m.Findable() && CompiledFrom(m, objects)
    ensures forall k :: 0 <= k < |objects| ==> N.ParsedFunction(objects[k].symbol).Some?
    ensures Generated(ExtractedAll(m, objects), m.ins, m.outs, m.registers, m.holes)
  {
    hide IsSymbol, N.ParsedFunction, Macro.Ok, Macro.Findable, Macro.Symbol, Bits, OutputsDistinct;
    AllParsed(m, objects);
    var functions := ExtractedAll(m, objects);
    forall k | 0 <= k < |functions| ensures IsGenerated(functions[k], m.ins, m.outs, m.registers, m.holes) {
      var t, wide := SymbolKnown(m, objects[k].symbol);
    }
    forall j, k | 0 <= j < k < |functions|
      ensures !IsFor(functions[k], Bits(functions[j].inputs + functions[j].outputs), functions[j].wide) {
      var t, v := SymbolKnown(m, objects[j].symbol);
      var u, w := SymbolKnown(m, objects[k].symbol);
    }
    forall t, wide | Wanted(t, wide, m.ins, m.outs, m.registers, m.holes)
      ensures exists k :: 0 <= k < |functions| && IsFor(functions[k], t, wide) {
      WantedHasSymbol(m, t, wide);
      var k :| 0 <= k < |objects| && objects[k].symbol == m.Symbol(t, wide);
      SymbolParsed(m, t, wide);
      assert IsFor(functions[k], t, wide);
    }
  }

  lemma WantedHasSymbol(m: Macro, t: seq<nat>, wide: bool)
    requires Wanted(t, wide, m.ins, m.outs, m.registers, m.holes)
    ensures |t| == m.ins + m.outs && IsSymbol(m, m.Symbol(t, wide))
  {
    hide Macro.Symbol, OutputsDistinct;
    assert m.Wants(t, wide);
  }

  /** The pipeline as a whole: in a family that was built from the functions of an expansion, the runtime selects
      for any operands the function that was generated for exactly these, or none if two outputs share a register. */
  lemma PipelineAgrees(m: Macro, objects: seq<Compiled>, f: Family, inputs: seq<Location>, outputs: seq<Location>,
                       holes: seq<Word>)
    requires m.Ok() && m.Findable() && CompiledFrom(m, objects)
    requires forall k :: 0 <= k < |objects| ==> N.ParsedFunction(objects[k].symbol).Some?
    requires BuiltFrom(f, ExtractedAll(m, objects)) && Operands(f, inputs, outputs, holes)
    requires f.ins == m.ins && f.outs == m.outs && f.maxRegs == m.registers && f.holes == m.holes
    ensures TableIndex(inputs, outputs, f.maxRegs, false) < |f.stencils|
    ensures f.stencils[TableIndex(inputs, outputs, f.maxRegs, false)].relocationIndex <= |f.relocationData|
    ensures var selected := Selection(f, inputs, outputs, holes);
      if OutputsDistinct(Bits(inputs + outputs), f.ins)
      then exists k :: 0 <= k < |objects| && SelectedObject(m, f, objects[k], inputs, outputs, selected)
      else selected == None
  {
    hide IsSymbol, N.ParsedFunction, Macro.Ok, Macro.Findable, Macro.Symbol, Bits, OutputsDistinct, Generated,
      BuiltFrom, TableIndex,
         HolesFit, CompiledFrom;
    ExtractionComplete(m, objects);
    var functions := ExtractedAll(m, objects);
    SelectionAgrees(f, functions, inputs, outputs, holes);
    BuiltLen(f, functions);
    var selected := Selection(f, inputs, outputs, holes);
    if OutputsDistinct(Bits(inputs + outputs), f.ins) {
      var g :| RightFunction(functions, g, inputs, outputs, holes) && Selects(f, selected, g);
      var k :| 0 <= k < |functions| && functions[k] == g;
      ObjectSymbol(m, objects, k);
      assert SelectedObject(m, f, objects[k], inputs, outputs, selected);
    }
  }

  lemma ObjectSymbol(m: Macro, objects: seq<Compiled>, k: nat)
    requires m.Ok() && m.Findable() && CompiledFrom(m, objects) && k < |objects|
    requires N.ParsedFunction(objects[k].symbol).Some?
    ensures var g := Extracted(objects[k]); var t := Bits(g.inputs + g.outputs);
      |t| == m.ins + m.outs && objects[k].symbol == m.Symbol(t, g.wide)
  {
    hide IsSymbol, N.ParsedFunction, Macro.Ok, Macro.Findable, Macro.Symbol, Bits, OutputsDistinct;
    var t, wide := SymbolKnown(m, objects[k].symbol);
  }

  /** The selected stencil has the code and the relocations of this object, whose symbol is the one
      of the locations of the operands. */
  ghost predicate SelectedObject(m: Macro, f: Family, c: Compiled, inputs: seq<Location>, outputs: seq<Location>,
                                 selected: Option<Selected>) {
    && selected.Some? && |inputs + outputs| == m.ins + m.outs
    && c.symbol == m.Symbol(Bits(inputs + outputs), selected.value.wide)
    && selected.value.stencil.codeIndex == c.codeStart && selected.value.stencil.codeLen == c.codeLen
    && ListIs(f.relocationData, selected.value.stencil.relocationIndex, c.relocations)
  }

  // ----- several families -----

  /** The extractor groups functions by the family name it has parsed. */
  predicate ParsesTo(c: Compiled, name: string) {
    N.ParsedFunction(c.symbol).Some? && N.ParsedFunction(c.symbol).value.name == name
  }

  function GroupOf(objects: seq<Compiled>, name: string): seq<Compiled> {
    if objects == [] then []
    else
      var (before, last) := (GroupOf(objects[..|objects| - 1], name), objects[|objects| - 1]);
      if ParsesTo(last, name) then before + [last] else before
  }

  predicate SymbolsDistinct(objects: seq<Compiled>) {
    forall j, k :: 0 <= j < k < |objects| ==> objects[j].symbol != objects[k].symbol
  }

  lemma {:induction false} GroupSpec(objects: seq<Compiled>, name: string)
    ensures forall c :: c in GroupOf(objects, name) <==> c in objects && ParsesTo(c, name)
    ensures SymbolsDistinct(objects) ==> SymbolsDistinct(GroupOf(objects, name))
  {
    hide ParsesTo;
    if objects != [] {
      var (init, last) := (objects[..|objects| - 1], objects[|objects| - 1]);
      GroupSpec(init, name);
      assert objects == init + [last];
      if SymbolsDistinct(objects) {
        forall c | c in GroupOf(init, name) ensures c.symbol != last.symbol {
          var k :| 0 <= k < |init| && init[k] == c;
          assert objects[k] == c;
        }
      }
    }
  }

  /** All functions of several macros, each once and in any order. */
  ghost predicate ProgramOf(macros: seq<Macro>, objects: seq<Compiled>) {
    && (forall i :: 0 <= i < |macros| ==> macros[i].Ok() && N.MacroAccepts(macros[i].name))
    && (forall i, j :: 0 <= i < j < |macros| ==> macros[i].name != macros[j].name)
    && (forall c :: c in objects ==> c.codeLen > 0 && NoneInvalid(c.relocations) && OfSome(macros, c.symbol))
    && SymbolsDistinct(objects)
    && (forall i, n :: 0 <= i < |macros| && IsSymbol(macros[i], n) ==> Contained(objects, n))
  }

  ghost predicate OfSome(macros: seq<Macro>, symbol: string) {
    exists i :: 0 <= i < |macros| && IsSymbol(macros[i], symbol)
  }

  predicate Contained(objects: seq<Compiled>, symbol: string) {
    exists k :: 0 <= k < |objects| && objects[k].symbol == symbol
  }

  /** A function of `a` is taken for one of `b`: the wide one without operands, if the names differ by an underscore. */
  predicate Shadows(a: Macro, b: Macro) {
    a.name == b.name + "_" && a.ins == 0 && a.outs == 0 && a.holes > 0
  }

  /** A function that is parsed to the name of a family is one of it, unless it is that one. */
  lemma SymbolOfFamily(a: Macro, b: Macro, symbol: string)
    requires a.Ok() && N.MacroAccepts(a.name) && IsSymbol(a, symbol)
    requires N.ParsedFunction(symbol).Some? && N.ParsedFunction(symbol).value.name == b.name
    ensures a.name == b.name || Shadows(a, b)
  {
    hide N.ParsedFunction, N.FunctionName, N.NameOk, N.MacroAccepts, N.Trailing, OutputsDistinct;
    N.AcceptedNames(a.name);
    if a.Findable() {
      var t, wide := SymbolKnown(a, symbol);
      SymbolParsed(a, t, wide);
    } else {
      var t, wide :| a.Wants(t, wide) && |t| == a.ins + a.outs && symbol == a.Symbol(t, wide);
      N.TrailingName(a.name, t[..a.ins], t[a.ins..], wide);
      TrailingShort(a.name);
    }
  }

  lemma TrailingShort(name: string)
    requires N.Trailing(name)
    ensures name == name[..|name| - 1] + "_"
  {
  }

  /** Without such a clash, the functions grouped under a family name are exactly those of the family. */
  lemma GroupComplete(macros: seq<Macro>, objects: seq<Compiled>, i: nat)
    requires ProgramOf(macros, objects) && i < |macros| && macros[i].Findable()
    requires forall j :: 0 <= j < |macros| ==> !Shadows(macros[j], macros[i])
    ensures CompiledFrom(macros[i], GroupOf(objects, macros[i].name))
  {
    hide IsSymbol, N.ParsedFunction, Macro.Ok, Macro.Findable, N.MacroAccepts, Shadows;
    var (m, group) := (macros[i], GroupOf(objects, macros[i].name));
    GroupSpec(objects, m.name);
    forall k | 0 <= k < |group|
      ensures IsSymbol(m, group[k].symbol) && group[k].codeLen > 0 && NoneInvalid(group[k].relocations) {
      var c := group[k];
      assert c in objects && ParsesTo(c, m.name);
      var j :| 0 <= j < |macros| && IsSymbol(macros[j], c.symbol);
      SymbolOfFamily(macros[j], m, c.symbol);
      assert macros[j].name == m.name;
    }
    forall n | IsSymbol(m, n) ensures exists k :: 0 <= k < |group| && group[k].symbol == n {
      assert Contained(objects, n);
      var k :| 0 <= k < |objects| && objects[k].symbol == n;
      SymbolFound(m, n);
      assert objects[k] in group;
    }
  }

  lemma SymbolFound(m: Macro, n: string)
    requires m.Ok() && m.Findable() && IsSymbol(m, n)
    ensures N.ParsedFunction(n).Some? && N.ParsedFunction(n).value.name == m.name
  {
    hide N.ParsedFunction, Macro.Symbol, Macro.Ok, Macro.Findable, Macro.Wants;
    var t, wide := SymbolKnown(m, n);
    SymbolParsed(m, t, wide);
  }

  /** With such a clash, they are not. */
  lemma GroupSpoilt(macros: seq<Macro>, objects: seq<Compiled>, i: nat, j: nat)
    requires ProgramOf(macros, objects) && i < |macros| && j < |macros| && macros[i].Findable()
    requires Shadows(macros[j], macros[i])
    ensures !CompiledFrom(macros[i], GroupOf(objects, macros[i].name))
  {
    hide N.ParsedFunction, N.FunctionName, N.NameOk, N.MacroAccepts, N.Trailing;
    var (m, a, group) := (macros[i], macros[j], GroupOf(objects, macros[i].name));
    assert Assignment([], 0, 0, a.registers);
    assert a.Wants([], true);
    var n := a.Symbol([], true);
    assert IsSymbol(a, n);
    assert Contained(objects, n);
    var k :| 0 <= k < |objects| && objects[k].symbol == n;
    SpoilingSymbol(m, a);
    GroupSpec(objects, m.name);
    assert objects[k] in group;
  }

  /** The wide function without operands is parsed to the other family, but is not one of its functions. */
  lemma SpoilingSymbol(m: Macro, a: Macro)
    requires m.Ok() && m.Findable() && N.MacroAccepts(a.name) && Shadows(a, m)
    ensures var n := a.Symbol([], true);
      N.ParsedFunction(n) == Some(N.Parsed(m.name, false, [], [])) && !IsSymbol(m, n)
  {
    hide N.ParsedFunction, N.NameOk, N.MacroAccepts, N.Join, Macro.Ok;
    var n := a.Symbol([], true);
    assert m.name != "" by {
      FindableName(m);
    }
    assert a.name[..|a.name| - 1] == m.name;
    N.TrailingName(a.name, [], [], true);
    NoBits();
    if m.ins == 0 && m.outs == 0 {
      assert |n| != |m.Symbol([], false)|;
    }
    if IsSymbol(m, n) {
      var t, wide := SymbolKnown(m, n);
    }
  }

  lemma FindableName(m: Macro)
    requires m.Findable()
    ensures m.name != ""
  {
  }

  lemma NoBits()
    ensures Bits([] + []) == []
  {
  }

  /** The functions grouped under a family name are those of the family, exactly if no other macro shadows it. */
  lemma GroupIsFamily(macros: seq<Macro>, objects: seq<Compiled>, i: nat)
    requires ProgramOf(macros, objects) && i < |macros| && macros[i].Findable()
    ensures CompiledFrom(macros[i], GroupOf(objects, macros[i].name))
      <==> forall j :: 0 <= j < |macros| ==> !Shadows(macros[j], macros[i])
  {
    hide ProgramOf, CompiledFrom, Shadows, Macro.Findable;
    if forall j :: 0 <= j < |macros| ==> !Shadows(macros[j], macros[i]) {
      GroupComplete(macros, objects, i);
    } else {
      var j :| 0 <= j < |macros| && Shadows(macros[j], macros[i]);
      GroupSpoilt(macros, objects, i, j);
    }
  }

  ghost predicate HasFamily(macros: seq<Macro>, name: string) {
    exists j :: 0 <= j < |macros| && macros[j].name == name
  }

  /** Every function whose symbol is parsed is put into a family that there is a macro, and so metadata, for. */
  ghost predicate AllKnown(macros: seq<Macro>, objects: seq<Compiled>) {
    forall c :: c in objects && N.ParsedFunction(c.symbol).Some? ==>
      HasFamily(macros, N.ParsedFunction(c.symbol).value.name)
  }

  /** A wide function of such a macro is put into the family without the last underscore. */
  predicate Strays(a: Macro) {
    N.Trailing(a.name) && a.ins == 0 && a.outs == 0 && a.holes > 0
  }

  /** The extractor misses metadata, and fails as a whole, exactly if some macro strays to a family that there is
      not. */
  lemma MetadataFound(macros: seq<Macro>, objects: seq<Compiled>)
    requires ProgramOf(macros, objects)
    ensures AllKnown(macros, objects)
      <==> forall i :: 0 <= i < |macros| && Strays(macros[i]) ==>
             HasFamily(macros, macros[i].name[..|macros[i].name| - 1])
  {
    hide ProgramOf, N.ParsedFunction, IsSymbol;
    if AllKnown(macros, objects) {
      forall i | 0 <= i < |macros| && Strays(macros[i])
        ensures HasFamily(macros, macros[i].name[..|macros[i].name| - 1])
      {
        var c := StrayObject(macros, objects, i);
      }
    }
    if forall i ::
      0 <= i < |macros| && Strays(macros[i]) ==> HasFamily(macros, macros[i].name[..|macros[i].name| - 1]) {
      forall c | c in objects && N.ParsedFunction(c.symbol).Some?
        ensures HasFamily(macros, N.ParsedFunction(c.symbol).value.name)
      {
        var j := FamilyOf(macros, objects, c);
      }
    }
  }

  /** The function that strays. */
  lemma StrayObject(macros: seq<Macro>, objects: seq<Compiled>, i: nat) returns (c: Compiled)
    requires ProgramOf(macros, objects) && i < |macros| && Strays(macros[i])
    ensures c in objects && |macros[i].name| >= 2
    ensures N.ParsedFunction(c.symbol)
      == Some(N.Parsed(macros[i].name[..|macros[i].name| - 1], false, [], []))
  {
    hide N.ParsedFunction, N.FunctionName, N.MacroAccepts, N.Join;
    var a := macros[i];
    assert Assignment([], 0, 0, a.registers);
    assert a.Wants([], true);
    var n := a.Symbol([], true);
    assert IsSymbol(a, n);
    assert Contained(objects, n);
    var k :| 0 <= k < |objects| && objects[k].symbol == n;
    c := objects[k];
    N.TrailingName(a.name, [], [], true);
  }

  /** The macro that a parsed function is from. */
  lemma FamilyOf(macros: seq<Macro>, objects: seq<Compiled>, c: Compiled) returns (j: nat)
    requires ProgramOf(macros, objects) && c in objects && N.ParsedFunction(c.symbol).Some?
    ensures j < |macros|
    ensures var name := N.ParsedFunction(c.symbol).value.name;
      || macros[j].name == name
      || (Strays(macros[j]) && |macros[j].name| >= 2 && macros[j].name[..|macros[j].name| - 1] == name)
  {
    hide N.ParsedFunction, N.FunctionName, N.MacroAccepts, IsSymbol, Macro.Symbol, Macro.Wants, N.NameOk;
    j :| 0 <= j < |macros| && IsSymbol(macros[j], c.symbol);
    var a := macros[j];
    N.AcceptedNames(a.name);
    if a.Findable() {
      SymbolFound(a, c.symbol);
    } else {
      StrayName(a, c.symbol);
    }
  }

  lemma StrayName(a: Macro, symbol: string)
    requires N.MacroAccepts(a.name) && N.Trailing(a.name) && IsSymbol(a, symbol)
    requires N.ParsedFunction(symbol).Some?
    ensures Strays(a) && N.ParsedFunction(symbol).value.name == a.name[..|a.name| - 1]
  {
    hide N.ParsedFunction, N.FunctionName, N.MacroAccepts, OutputsDistinct;
    var t, wide :| a.Wants(t, wide) && |t| == a.ins + a.outs && symbol == a.Symbol(t, wide);
    N.TrailingName(a.name, t[..a.ins], t[a.ins..], wide);
  }

  /** End to end, for all macros of a program. */
  lemma ProgramAgrees(macros: seq<Macro>, objects: seq<Compiled>, i: nat, f: Family,
                      inputs: seq<Location>, outputs: seq<Location>, holes: seq<Word>)
    requires ProgramOf(macros, objects) && i < |macros| && macros[i].Findable()
    requires forall j :: 0 <= j < |macros| ==> !Shadows(macros[j], macros[i])
    requires var group := GroupOf(objects, macros[i].name);
      && (forall k :: 0 <= k < |group| ==> N.ParsedFunction(group[k].symbol).Some?)
      && BuiltFrom(f, ExtractedAll(macros[i], group))
    requires Operands(f, inputs, outputs, holes)
    requires var m := macros[i]; f.ins == m.ins && f.outs == m.outs && f.maxRegs == m.registers && f.holes == m.holes
    ensures TableIndex(inputs, outputs, f.maxRegs, false) < |f.stencils|
    ensures f.stencils[TableIndex(inputs, outputs, f.maxRegs, false)].relocationIndex <= |f.relocationData|
    ensures var selected := Selection(f, inputs, outputs, holes);
      if OutputsDistinct(Bits(inputs + outputs), f.ins)
      then exists c :: c in objects && SelectedObject(macros[i], f, c, inputs, outputs, selected)
      else selected == None
  {
    hide N.ParsedFunction, Macro.Findable, BuiltFrom, CompiledFrom, TableIndex, Selection, Operands, Bits,
      OutputsDistinct,
         SelectedObject, Shadows, N.MacroAccepts;
    var (m, group) := (macros[i], GroupOf(objects, macros[i].name));
    GroupIsFamily(macros, objects, i);
    PipelineAgrees(m, group, f, inputs, outputs, holes);
    BuiltLen(f, ExtractedAll(m, group));
    GroupSpec(objects, m.name);
    var selected := Selection(f, inputs, outputs, holes);
    if OutputsDistinct(Bits(inputs + outputs), f.ins) {
      var k :| 0 <= k < |group| && SelectedObject(m, f, group[k], inputs, outputs, selected);
      assert group[k] in objects;
    }
  }

  // ----- examples -----

  /** The name in a symbol of a family with ten locations, and the place of its stencil in the table. */
  ghost predicate NamesEntry(symbol: string, name: string, wide: bool, index: nat) {
    match N.ParsedFunction(N.FUNCTION_PREFIX + symbol)
    case None => false
    case Some(p) => p.name == name && p.wide == wide && TableIndex(p.inputs, p.outputs, 10, wide) == index
  }

  lemma EntryOfName(name: string, ins: seq<nat>, outs: seq<nat>, wide: bool, symbol: string, index: nat)
    requires N.NameOk(name) && N.AllU16(ins) && N.AllU16(outs) && symbol == N.StencilName(name, ins, outs, wide)
    requires index == TableIndex(N.FromDigits(ins), N.FromDigits(outs), 10, wide)
    ensures NamesEntry(symbol, name, wide, index)
  {
    hide N.NameOk, N.ParsedFunction, N.StencilName, TableIndex;
    N.NameRoundTrip(name, ins, outs, wide);
    assert N.FunctionName(name, ins, outs, wide) == N.FUNCTION_PREFIX + symbol;
  }

  lemma TwoOperands(a: nat, b: nat)
    ensures IoIndex(N.FromDigits([a]) + N.FromDigits([b]), 10) == 10 * a + b
  {
    var (l, m) := (FromBits(a), FromBits(b));
    assert N.FromDigits([a]) + N.FromDigits([b]) == [l, m];
    assert [l, m][..1] == [l] && [l][..0] == [];
    assert IoIndex([l], 10) == a;
  }

  lemma JoinedDigits()
    ensures N.Join([]) == "" && N.Join([0]) == "0" && N.Join([1]) == "1" && N.Join([9]) == "9"
  {
  }

  lemma AddConstSpelled()
    ensures N.StencilName("add_const", [1], [0], false) == "add_const__1__0"
    ensures N.StencilName("add_const", [9], [0], true) == "add_const__9__0__wide"
  {
    hide N.Join;
    JoinedDigits();
  }

  lemma BuiltinsSpelled()
    ensures N.StencilName("__empty", [], [], false) == "__empty____"
    ensures N.StencilName("__long_jump", [], [], true) == "__long_jump______wide"
    ensures N.StencilName("__move", [1], [1], false) == "__move__1__1"
  {
    hide N.Join;
    JoinedDigits();
  }

  lemma HundredEntries()
    ensures StencilsLen(0, 0, 10) == 1 && StencilsLen(1, 1, 10) == 100
  {
    assert Power(10, 1) == 10;
  }

  lemma AddConstEntries()
    ensures NamesEntry("add_const__1__0", "add_const", false, 10)
    ensures NamesEntry("add_const__9__0__wide", "add_const", true, 190)
  {
    hide NamesEntry, N.NameOk, IoIndex, N.StencilName, N.Join, Power;
    N.OrdinaryNames("add_const");
    AddConstSpelled();
    TwoOperands(1, 0);
    TwoOperands(9, 0);
    HundredEntries();
    EntryOfName("add_const", [1], [0], false, "add_const__1__0", 10);
    EntryOfName("add_const", [9], [0], true, "add_const__9__0__wide", 190);
  }

  lemma BuiltinEntries()
    ensures NamesEntry("__empty____", "__empty", false, 0)
    ensures NamesEntry("__long_jump______wide", "__long_jump", true, 1)
    ensures NamesEntry("__move__1__1", "__move", false, 11)
  {
    hide NamesEntry, N.NameOk, N.StencilName, N.Join, Power;
    N.BuiltinNames();
    BuiltinsSpelled();
    TwoOperands(1, 1);
    HundredEntries();
    EntryOfName("__empty", [], [], false, "__empty____", 0);
    EntryOfName("__long_jump", [], [], true, "__long_jump______wide", 1);
    EntryOfName("__move", [1], [1], false, "__move__1__1", 11);
  }

  /** The five names that the tests of the extraction go through. */
  lemma TestedNames()
    ensures NamesEntry("add_const__1__0", "add_const", false, 10)
    ensures NamesEntry("add_const__9__0__wide", "add_const", true, 190)
    ensures NamesEntry("__empty____", "__empty", false, 0)
    ensures NamesEntry("__long_jump______wide", "__long_jump", true, 1)
    ensures NamesEntry("__move__1__1", "__move", false, 11)
  {
    hide NamesEntry;
    AddConstEntries();
    BuiltinEntries();
  }
}
