/** Stencil families and the table that finds a stencil (`crates/patchouly-core/src/stencils.rs`). */
module Stencils {
  import opened Wrappers
  import opened Locations
  import opened Words
  import opened Relocations

  /** A stencil: its code, and the first of its relocations in the pool of its family. */
  datatype Stencil = Stencil(codeIndex: nat, codeLen: nat, relocationIndex: nat)

  /** The entry of a table that no stencil has been put into. */
  const NO_STENCIL := Stencil(0, 0, 0)

  datatype Family = Family(
    ins: nat,
    outs: nat,
    maxRegs: nat,
    holes: nat,
    jumps: nat,
    relocationData: seq<Relocation>,
    stencils: seq<Stencil>)

  datatype Selected = Selected(wide: bool, stencil: Stencil)

  // ----- tables -----

  function Power(b: nat, n: nat): (r: nat)
    ensures b > 0 ==> r > 0
  {
    if n == 0 then 1 else b * Power(b, n - 1)
  }

  /** The number of ways to place `ins` inputs and `outs` outputs. */
  function StencilsLen(ins: nat, outs: nat, maxRegs: nat): nat {
    Power(maxRegs, ins + outs)
  }

  /** The locations as the digits of a number. */
  function IoIndex(locations: seq<Location>, maxRegs: nat): nat {
    if locations == [] then 0
    else maxRegs * IoIndex(locations[..|locations| - 1], maxRegs) + IntoBits(locations[|locations| - 1])
  }

  function TableIndex(inputs: seq<Location>, outputs: seq<Location>, maxRegs: nat, wide: bool): nat {
    IoIndex(inputs + outputs, maxRegs) + if wide then StencilsLen(|inputs|, |outputs|, maxRegs) else 0
  }

  method IoToIndex(inputs: seq<Location>, outputs: seq<Location>, maxRegs: nat, wide: bool) returns (index: nat)
    ensures index == TableIndex(inputs, outputs, maxRegs, wide)
  {
    var vars := inputs + outputs;
    var i: nat := 0;
    assert vars[..0] == [];
    for k := 0 to |vars|
      invariant i == IoIndex(vars[..k], maxRegs)
    {
      assert vars[..k + 1][..k] == vars[..k];
      i := maxRegs * i + match vars[k] case Stack(_) => 0 case Register(r) => r + 1;
    }
    assert vars[..|vars|] == vars;
    return i + if wide then StencilsLen(|inputs|, |outputs|, maxRegs) else 0;
  }

  /** The `n` low digits of `index`, most significant first, as locations. */
  function Digits(index: nat, n: nat, maxRegs: nat): (r: seq<Location>)
    requires maxRegs > 0
    ensures |r| == n
    decreases n
  {
    if n == 0 then [] else Digits(index / maxRegs, n - 1, maxRegs) + [FromBits(index % maxRegs)]
  }

  function DropDigits(index: nat, n: nat, maxRegs: nat): nat
    requires maxRegs > 0
    decreases n
  {
    if n == 0 then index else DropDigits(index / maxRegs, n - 1, maxRegs)
  }

  /** `process_index`: fills `slots` with the low digits from the last to the first, and returns the rest. */
  method ProcessIndex(index: nat, maxRegs: nat, slots: array<Location>) returns (rest: nat)
    requires maxRegs > 0
    modifies slots
    ensures slots[..] == Digits(index, slots.Length, maxRegs)
    ensures rest == DropDigits(index, slots.Length, maxRegs)
  {
    rest := index;
    var i := slots.Length;
    while i > 0
      invariant 0 <= i <= slots.Length
      invariant Digits(index, slots.Length, maxRegs) == Digits(rest, i, maxRegs) + slots[i..]
      invariant DropDigits(index, slots.Length, maxRegs) == DropDigits(rest, i, maxRegs)
    {
      i := i - 1;
      var reg := rest % maxRegs;
      RestDigits(rest, maxRegs);
      ghost var before := slots[i + 1..];
      slots[i] := if reg == 0 then Location.Stack(0) else Register(reg - 1);
      assert slots[i..] == [slots[i]] + before;
      rest := (rest - reg) / maxRegs;
    }
  }

  lemma RestDigits(index: nat, maxRegs: nat)
    requires maxRegs > 0
    ensures index >= index % maxRegs && (index - index % maxRegs) / maxRegs == index / maxRegs
  {
    var (q, r) := (index / maxRegs, index % maxRegs);
    assert index - r == maxRegs * q + 0;
    DivUnique(index - r, maxRegs, q, 0);
    MultipleAtLeast(maxRegs, q);
  }

  method IndexToIoLossy(index: nat, maxRegs: nat, inputs: array<Location>,
                        outputs: array<Location>) returns (wide: bool)
    requires maxRegs > 0 && inputs != outputs
    requires index < 2 * StencilsLen(inputs.Length, outputs.Length, maxRegs)
    modifies inputs, outputs
    ensures inputs[..] + outputs[..] == Digits(index, inputs.Length + outputs.Length, maxRegs)
    ensures wide == (index >= StencilsLen(inputs.Length, outputs.Length, maxRegs))
  {
    var rest := ProcessIndex(index, maxRegs, outputs);
    rest := ProcessIndex(rest, maxRegs, inputs);
    DigitsSplit(index, inputs.Length, outputs.Length, maxRegs);
    TopDigit(index, inputs.Length + outputs.Length, maxRegs);
    assert rest == 0 || rest == 1;
    return rest == 1;
  }

  lemma DigitsStep(index: nat, n: nat, maxRegs: nat)
    requires maxRegs > 0
    ensures Digits(index, n + 1, maxRegs) == Digits(index / maxRegs, n, maxRegs) + [FromBits(index % maxRegs)]
    ensures DropDigits(index, n + 1, maxRegs) == DropDigits(index / maxRegs, n, maxRegs)
  {
  }

  lemma NoDigits(index: nat, maxRegs: nat)
    requires maxRegs > 0
    ensures Digits(index, 0, maxRegs) == [] && DropDigits(index, 0, maxRegs) == index
  {
  }

  lemma {:induction false} DigitsSplit(index: nat, m: nat, n: nat, maxRegs: nat)
    requires maxRegs > 0
    ensures Digits(index, m + n, maxRegs) == Digits(DropDigits(index, n, maxRegs), m, maxRegs)
        + Digits(index, n, maxRegs)
    ensures DropDigits(index, m + n, maxRegs) == DropDigits(DropDigits(index, n, maxRegs), m, maxRegs)
    decreases n
  {
    hide Digits, DropDigits, FromBits;
    if n == 0 {
      NoDigits(index, maxRegs);
    } else {
      DigitsSplit(index / maxRegs, m, n - 1, maxRegs);
      DigitsStep(index, n - 1, maxRegs);
      DigitsStep(index, m + n - 1, maxRegs);
    }
  }

  /** What is left above `n` digits of a number below `2 * maxRegs^n`. */
  lemma {:induction false} TopDigit(index: nat, n: nat, maxRegs: nat)
    requires maxRegs > 0 && index < 2 * Power(maxRegs, n)
    ensures DropDigits(index, n, maxRegs) == if index < Power(maxRegs, n) then 0 else 1
    decreases n
  {
    hide DropDigits, Power;
    if n == 0 {
      NoDigits(index, maxRegs);
      PowerZero(maxRegs);
    } else {
      var rest := RestBelow(index, n - 1, maxRegs);
      TopDigit(rest, n - 1, maxRegs);
    }
  }

  lemma PowerZero(b: nat)
    ensures Power(b, 0) == 1
  {
  }

  lemma RestBelow(index: nat, n: nat, maxRegs: nat) returns (rest: nat)
    requires maxRegs > 0 && index < 2 * Power(maxRegs, n + 1)
    ensures rest < 2 * Power(maxRegs, n)
    ensures index < Power(maxRegs, n + 1) <==> rest < Power(maxRegs, n)
    ensures DropDigits(index, n + 1, maxRegs) == DropDigits(rest, n, maxRegs)
  {
    hide DropDigits;
    rest := index / maxRegs;
    DigitsStep(index, n, maxRegs);
    var p := Power(maxRegs, n);
    Doubled(maxRegs, p);
    DivBelow(index, maxRegs, 2 * p);
    DivBelow(index, maxRegs, p);
  }

  lemma Doubled(x: nat, y: nat)
    ensures x * (2 * y) == 2 * (x * y)
  {
  }

  lemma DivBelow(x: nat, d: nat, p: nat)
    requires d > 0
    ensures x < d * p <==> x / d < p
  {
    var (q, r) := (x / d, x % d);
    assert x == d * q + r;
    NextMultiple(d, q);
    if q < p {
      MultiplesOrdered(d, q + 1, p);
    } else {
      MultiplesOrdered(d, p, q);
    }
  }

  // ----- round trips -----

  /** A location without the number of its stack slot. */
  function Lossy(l: Location): Location {
    match l
    case Stack(_) => Location.Stack(0)
    case Register(_) => l
  }

  predicate Encodable(locations: seq<Location>, maxRegs: nat) {
    forall i :: 0 <= i < |locations| ==> IntoBits(locations[i]) < maxRegs
  }

  function LossyAll(locations: seq<Location>): (r: seq<Location>)
    ensures |r| == |locations| && forall i :: 0 <= i < |r| ==> r[i] == Lossy(locations[i])
  {
    seq(|locations|, i requires 0 <= i < |locations| => Lossy(locations[i]))
  }

  lemma {:induction false} IoIndexBelow(locations: seq<Location>, maxRegs: nat)
    requires maxRegs > 0 && Encodable(locations, maxRegs)
    ensures IoIndex(locations, maxRegs) < Power(maxRegs, |locations|)
  {
    if locations != [] {
      var init := locations[..|locations| - 1];
      IoIndexBelow(init, maxRegs);
      var p, i := Power(maxRegs, |init|), IoIndex(init, maxRegs);
      NextMultiple(maxRegs, i);
      MultiplesOrdered(maxRegs, i + 1, p);
    }
  }

  /** Locations to index and back: only the numbers of stack slots are lost, in both halves of the table. */
  lemma {:induction false} DigitsOfIndex(locations: seq<Location>, maxRegs: nat, above: nat)
    requires maxRegs > 0 && Encodable(locations, maxRegs)
    ensures Digits(IoIndex(locations, maxRegs) + above * Power(maxRegs, |locations|), |locations|, maxRegs)
        == LossyAll(locations)
  {
    if locations != [] {
      var init, last := locations[..|locations| - 1], locations[|locations| - 1];
      DigitsOfIndex(init, maxRegs, above);
      LastDigit(IoIndex(init, maxRegs), IntoBits(last), above, Power(maxRegs, |init|), maxRegs);
      assert LossyAll(locations) == LossyAll(init) + [Lossy(last)];
    }
  }

  lemma LastDigit(i: nat, d: nat, above: nat, p: nat, maxRegs: nat)
    requires d < maxRegs
    ensures var index := maxRegs * i + d + above * (maxRegs * p);
      index / maxRegs == i + above * p && index % maxRegs == d
  {
    var index := maxRegs * i + d + above * (maxRegs * p);
    assert index == maxRegs * (i + above * p) + d by {
      assert above * (maxRegs * p) == maxRegs * (above * p);
      assert maxRegs * (i + above * p) == maxRegs * i + maxRegs * (above * p);
    }
    DivUnique(index, maxRegs, i + above * p, d);
  }

  lemma LossyRoundTrip(inputs: seq<Location>, outputs: seq<Location>, maxRegs: nat, wide: bool)
    requires maxRegs > 0 && Encodable(inputs + outputs, maxRegs)
    ensures var (index, len) := (TableIndex(inputs, outputs, maxRegs, wide), StencilsLen(|inputs|, |outputs|, maxRegs));
      && index < 2 * len && (wide <==> index >= len)
      && Digits(index, |inputs| + |outputs|, maxRegs) == LossyAll(inputs) + LossyAll(outputs)
  {
    hide Digits, IoIndex, Power, Encodable, LossyAll;
    var all := inputs + outputs;
    IoIndexBelow(all, maxRegs);
    DigitsOfIndex(all, maxRegs, if wide then 1 else 0);
    LossyAllConcat(inputs, outputs);
    assert Power(maxRegs, |all|) == StencilsLen(|inputs|, |outputs|, maxRegs);
  }

  lemma LossyAllConcat(a: seq<Location>, b: seq<Location>)
    ensures LossyAll(a + b) == LossyAll(a) + LossyAll(b)
  {
  }

  /** Index to locations and back, in the narrow half. */
  lemma {:induction false} IndexOfDigits(index: nat, n: nat, maxRegs: nat)
    requires maxRegs > 0 && index < Power(maxRegs, n)
    ensures IoIndex(Digits(index, n, maxRegs), maxRegs) == index && Encodable(Digits(index, n, maxRegs), maxRegs)
    decreases n
  {
    if n > 0 {
      var q, r := index / maxRegs, index % maxRegs;
      DivBelow(index, maxRegs, Power(maxRegs, n - 1));
      IndexOfDigits(q, n - 1, maxRegs);
      DivMod(index, maxRegs);
      DigitsSnoc(Digits(q, n - 1, maxRegs), FromBits(r), maxRegs);
    }
  }

  lemma DigitsSnoc(init: seq<Location>, last: Location, maxRegs: nat)
    ensures IoIndex(init + [last], maxRegs) == maxRegs * IoIndex(init, maxRegs) + IntoBits(last)
    ensures Encodable(init + [last], maxRegs) <==> Encodable(init, maxRegs) && IntoBits(last) < maxRegs
  {
    var all := init + [last];
    assert all[..|init|] == init && all[|init|] == last;
    if Encodable(all, maxRegs) {
      forall i | 0 <= i < |init| ensures IntoBits(init[i]) < maxRegs {
        assert all[i] == init[i];
      }
    }
  }

  /** Index to locations and back, in both halves. */
  lemma IndexRoundTrip(index: nat, ins: nat, outs: nat, maxRegs: nat)
    requires maxRegs > 0 && index < 2 * StencilsLen(ins, outs, maxRegs)
    ensures var digits := Digits(index, ins + outs, maxRegs);
      TableIndex(digits[..ins], digits[ins..], maxRegs, index >= StencilsLen(ins, outs, maxRegs)) == index
  {
    hide Digits, Power, IoIndex, Encodable;
    var digits := Digits(index, ins + outs, maxRegs);
    assert digits[..ins] + digits[ins..] == digits;
    var len := StencilsLen(ins, outs, maxRegs);
    if index >= len {
      HighHalf(index - len, ins + outs, maxRegs);
      IndexOfDigits(index - len, ins + outs, maxRegs);
    } else {
      IndexOfDigits(index, ins + outs, maxRegs);
    }
  }

  lemma {:induction false} HighHalf(index: nat, n: nat, maxRegs: nat)
    requires maxRegs > 0
    ensures Digits(index + Power(maxRegs, n), n, maxRegs) == Digits(index, n, maxRegs)
    decreases n
  {
    hide Digits, FromBits, Power;
    if n == 0 {
      NoDigits(index, maxRegs);
      NoDigits(index + Power(maxRegs, n), maxRegs);
    } else {
      var rest, digit := HighDigit(index, n - 1, maxRegs);
      HighHalf(rest, n - 1, maxRegs);
    }
  }

  lemma HighDigit(index: nat, n: nat, maxRegs: nat) returns (rest: nat, digit: nat)
    requires maxRegs > 0
    ensures Digits(index, n + 1, maxRegs) == Digits(rest, n, maxRegs) + [FromBits(digit)]
    ensures Digits(index + Power(maxRegs, n + 1), n + 1, maxRegs)
      == Digits(rest + Power(maxRegs, n), n, maxRegs) + [FromBits(digit)]
  {
    hide Digits, FromBits, Power;
    rest, digit := index / maxRegs, index % maxRegs;
    DigitsStep(index, n, maxRegs);
    DigitsStep(index + Power(maxRegs, n + 1), n, maxRegs);
    HighRest(index, n, maxRegs);
  }

  lemma HighRest(index: nat, n: nat, maxRegs: nat)
    requires maxRegs > 0
    ensures (index + Power(maxRegs, n + 1)) / maxRegs == index / maxRegs + Power(maxRegs, n)
    ensures (index + Power(maxRegs, n + 1)) % maxRegs == index % maxRegs
  {
    DivMod(index, maxRegs);
    LastDigit(index / maxRegs, index % maxRegs, 1, Power(maxRegs, n), maxRegs);
  }

  /** Different locations have different table indices. */
  lemma IndexInjective(a: seq<Location>, b: seq<Location>, v: bool, c: seq<Location>, d: seq<Location>, w: bool,
                       maxRegs: nat)
    requires maxRegs > 0 && |a| == |c| && |b| == |d| && Encodable(a + b, maxRegs) && Encodable(c + d, maxRegs)
    requires TableIndex(a, b, maxRegs, v) == TableIndex(c, d, maxRegs, w)
    ensures v == w && LossyAll(a) == LossyAll(c) && LossyAll(b) == LossyAll(d)
  {
    LossyRoundTrip(a, b, maxRegs, v);
    LossyRoundTrip(c, d, maxRegs, w);
    var all := LossyAll(a) + LossyAll(b);
    assert all[..|a|] == LossyAll(a) && all[|a|..] == LossyAll(b);
    var all' := LossyAll(c) + LossyAll(d);
    assert all'[..|c|] == LossyAll(c) && all'[|c|..] == LossyAll(d);
  }

  /** The table is in the order of the operands: at the first operand that differs, the stack comes before the
      registers, and these in order. */
  lemma {:induction false} IndexOrder(a: seq<Location>, b: seq<Location>, maxRegs: nat, k: nat)
    requires |a| == |b| && Encodable(a, maxRegs) && Encodable(b, maxRegs)
    requires k < |a| && LossyAll(a[..k]) == LossyAll(b[..k]) && IntoBits(a[k]) < IntoBits(b[k])
    ensures IoIndex(a, maxRegs) < IoIndex(b, maxRegs)
    decreases |a|
  {
    var n := |a| - 1;
    if k == n {
      SameIndex(a[..n], b[..n], maxRegs);
    } else {
      assert a[..n][..k] == a[..k] && b[..n][..k] == b[..k];
      IndexOrder(a[..n], b[..n], maxRegs, k);
      NextMultiple(maxRegs, IoIndex(a[..n], maxRegs));
      MultiplesOrdered(maxRegs, IoIndex(a[..n], maxRegs) + 1, IoIndex(b[..n], maxRegs));
    }
  }

  lemma {:induction false} SameIndex(a: seq<Location>, b: seq<Location>, maxRegs: nat)
    requires LossyAll(a) == LossyAll(b)
    ensures IoIndex(a, maxRegs) == IoIndex(b, maxRegs)
  {
    assert |a| == |b|;
    if a != [] {
      var n := |a| - 1;
      assert LossyAll(a)[n] == LossyAll(b)[n];
      assert LossyAll(a[..n]) == LossyAll(a)[..n] && LossyAll(b[..n]) == LossyAll(b)[..n];
      SameIndex(a[..n], b[..n], maxRegs);
    }
  }

  // ----- lists of relocations -----

  /** The list that starts at `index` of a pool: up to the first sentinel. */
  function ListAt(data: seq<Relocation>, index: nat): seq<Relocation>
    requires index <= |data|
    decreases |data| - index
  {
    if index == |data| || data[index].IsInvalid() then [] else [data[index]] + ListAt(data, index + 1)
  }

  /** The list that starts at `index` ends with a sentinel. */
  predicate Terminated(data: seq<Relocation>, index: nat)
    requires index <= |data|
  {
    index + |ListAt(data, index)| < |data|
  }

  lemma {:induction false} ListAtBasics(data: seq<Relocation>, index: nat)
    requires index <= |data|
    ensures var list := ListAt(data, index);
      && index + |list| <= |data| && list == data[index..index + |list|]
      && (forall i :: 0 <= i < |list| ==> !list[i].IsInvalid())
      && (index + |list| < |data| ==> data[index + |list|].IsInvalid())
    decreases |data| - index
  {
    if index < |data| && !data[index].IsInvalid() {
      ListAtBasics(data, index + 1);
    }
  }

  /** A list that is in the pool, followed by a sentinel, is what is read from its start. */
  lemma {:induction false} ListAtIs(data: seq<Relocation>, index: nat, list: seq<Relocation>)
    requires index + |list| < |data| && data[index..index + |list|] == list
    requires data[index + |list|].IsInvalid() && forall i :: 0 <= i < |list| ==> !list[i].IsInvalid()
    ensures ListAt(data, index) == list && Terminated(data, index)
    decreases |list|
  {
    if list != [] {
      assert list[0] == data[index];
      ListAtIs(data, index + 1, list[1..]);
    }
  }

  // ----- selection -----

  predicate HolesFit(list: seq<Relocation>, holes: seq<Word>) {
    forall i :: 0 <= i < |list| && list[i].kind == Hole && list[i].id < |holes|
        ==> list[i].SupportsValue(holes[list[i].id])
  }

  lemma NoHoles(list: seq<Relocation>, holes: seq<Word>)
    requires list == []
    ensures HolesFit(list, holes)
  {
  }

  lemma HolesFitMore(list: seq<Relocation>, n: nat, holes: seq<Word>)
    requires n < |list| && (list[n].kind == Hole ==> list[n].id < |holes|)
    requires HolesFit(list[..n], holes)
    ensures list[n].kind == Hole && !list[n].SupportsValue(holes[list[n].id]) ==> !HolesFit(list, holes)
    ensures !(list[n].kind == Hole && !list[n].SupportsValue(holes[list[n].id])) ==> HolesFit(list[..n + 1], holes)
  {
    hide Relocation.SupportsValue;
    assert list[..n + 1] == list[..n] + [list[n]];
  }

  /** The table of a family is complete, and each entry's list is terminated and asks for holes that exist. */
  ghost predicate FamilyOk(f: Family) {
    && f.maxRegs > 0
    && |f.stencils| == (if f.holes > 0 then 2 else 1) * StencilsLen(f.ins, f.outs, f.maxRegs)
    && (forall i :: 0 <= i < |f.stencils| ==> EntryOk(f, f.stencils[i]))
  }

  ghost predicate EntryOk(f: Family, s: Stencil) {
    && s.relocationIndex <= |f.relocationData| && Terminated(f.relocationData, s.relocationIndex)
    && forall k :: 0 <= k < |ListAt(f.relocationData, s.relocationIndex)| ==>
         var r := ListAt(f.relocationData, s.relocationIndex)[k];
         r.kind == Hole ==> r.id < f.holes
  }

  /** The entry for these operands, wide if some hole does not fit its field. */
  function Selection(f: Family, inputs: seq<Location>, outputs: seq<Location>, holes: seq<Word>): Option<Selected>
    requires f.maxRegs > 0 && TableIndex(inputs, outputs, f.maxRegs, false) < |f.stencils|
    requires f.stencils[TableIndex(inputs, outputs, f.maxRegs, false)].relocationIndex <= |f.relocationData|
  {
    var index := TableIndex(inputs, outputs, f.maxRegs, false);
    var narrow := f.stencils[index];
    if HolesFit(ListAt(f.relocationData, narrow.relocationIndex), holes) then
      if narrow.codeLen == 0 then None else Some(Selected(false, narrow))
    else if index + StencilsLen(f.ins, f.outs, f.maxRegs) < |f.stencils| then
      var wide := f.stencils[index + StencilsLen(f.ins, f.outs, f.maxRegs)];
      if wide.codeLen == 0 then None else Some(Selected(true, wide))
    else None
  }

  /** What the scan of a table entry relies on. */
  lemma EntryFacts(f: Family, inputs: seq<Location>, outputs: seq<Location>)
    requires FamilyOk(f) && |inputs| == f.ins && |outputs| == f.outs && Encodable(inputs + outputs, f.maxRegs)
    ensures var index := TableIndex(inputs, outputs, f.maxRegs, false);
      && index < |f.stencils| && EntryOk(f, f.stencils[index])
      && (f.holes > 0 ==> index + StencilsLen(f.ins, f.outs, f.maxRegs) < |f.stencils|)
  {
    IoIndexBelow(inputs + outputs, f.maxRegs);
    hide IoIndex, EntryOk, Encodable, Power;
  }

  lemma ListFacts(f: Family, s: Stencil)
    requires EntryOk(f, s)
    ensures var (list, index) := (ListAt(f.relocationData, s.relocationIndex), s.relocationIndex);
      && index + |list| < |f.relocationData| && list == f.relocationData[index..index + |list|]
      && f.relocationData[index + |list|].IsInvalid()
      && forall k :: 0 <= k < |list| ==> !list[k].IsInvalid() && (list[k].kind == Hole ==> list[k].id < f.holes)
  {
    ListAtBasics(f.relocationData, s.relocationIndex);
  }

  /** `StencilFamily::select`: scans the relocations of the narrow entry up to the sentinel. */
  method Select(f: Family, inputs: seq<Location>, outputs: seq<Location>,
                holes: seq<Word>) returns (r: Option<Selected>)
    requires FamilyOk(f) && |inputs| == f.ins && |outputs| == f.outs && |holes| == f.holes
    requires Encodable(inputs + outputs, f.maxRegs)
    ensures TableIndex(inputs, outputs, f.maxRegs, false) < |f.stencils|
    ensures r == Selection(f, inputs, outputs, holes)
  {
    var index := IoToIndex(inputs, outputs, f.maxRegs, false);
    EntryFacts(f, inputs, outputs);
    var narrow := f.stencils[index];
    ListFacts(f, narrow);
    hide FamilyOk, EntryOk, Encodable, TableIndex, StencilsLen, ListAt, HolesFit, Relocation.SupportsValue;
    ghost var list := ListAt(f.relocationData, narrow.relocationIndex);
    NoHoles(list[..0], holes);
    var k := narrow.relocationIndex;
    while k < |f.relocationData|
      invariant narrow.relocationIndex <= k <= narrow.relocationIndex + |list|
      invariant HolesFit(list[..k - narrow.relocationIndex], holes)
    {
      ghost var n := k - narrow.relocationIndex;
      var reloc := f.relocationData[k];
      if reloc.IsInvalid() {
        assert n == |list| && list[..n] == list;
        return if narrow.codeLen == 0 then None else Some(Selected(false, narrow));
      }
      assert list[n] == reloc;
      HolesFitMore(list, n, holes);
      if reloc.kind == Hole && !reloc.SupportsValue(holes[reloc.id]) {
        break;
      }
      k := k + 1;
    }
    var wide := f.stencils[index + StencilsLen(f.ins, f.outs, f.maxRegs)];
    return if wide.codeLen == 0 then None else Some(Selected(true, wide));
  }
}
