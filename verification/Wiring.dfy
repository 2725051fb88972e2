/** The functions that the macro generates around a stencil's body: which variable stands for which operand
    (`crates/patchouly-macros/src/stencil.rs`), as a small language of let-bindings. */
module Wiring {
  import opened Wrappers
  import opened Words
  import opened Locations
  import opened Emissions
  import N = Names
  import opened Permutations
  import Extraction

  // ----- variables -----

  datatype Variable =
    | Pass(n: nat)
    | In(i: nat)
    | Out(j: nat)
    | InOut(i: nat, j: nat)
    | StackVar(k: nat)
    | HoleVar(k: nat)
    | TargetName(k: nat, ident: string)
    | Chosen
    | NextAddress
    | Ret(k: nat)
    | Memory

  /** The identifier of a variable. */
  function Identifier(v: Variable): string {
    match v
    case Pass(n) => "pass" + N.Decimal(n)
    case In(i) => "in" + N.Decimal(i)
    case Out(j) => "out" + N.Decimal(j)
    case InOut(i, j) => "in" + N.Decimal(i) + "_" + ("out" + N.Decimal(j))
    case StackVar(k) => "stack" + N.Decimal(k)
    case HoleVar(k) => "hole" + N.Decimal(k)
    case TargetName(k, ident) => "target" + N.Decimal(k) + "_" + ident
    case Chosen => "target"
    case NextAddress => "__next"
    case Ret(k) => "ret" + N.Decimal(k)
    case Memory => "stack"
  }

  /** Identifiers that occur in the tests of the macro. */
  lemma TestedIdentifiers()
    ensures Identifier(Pass(1)) == "pass1" && Identifier(In(0)) == "in0" && Identifier(Out(0)) == "out0"
    ensures Identifier(StackVar(2)) == "stack2" && Identifier(HoleVar(0)) == "hole0" && Identifier(Ret(0)) == "ret0"
    ensures Identifier(TargetName(1, "or_else")) == "target1_or_else"
  {
    assert Identifier(TargetName(1, "or_else")) == "target1_or_else";
  }

  lemma DecimalInjective(m: nat, n: nat)
    requires N.Decimal(m) == N.Decimal(n)
    ensures m == n
  {
    N.DecimalRoundTrip(m);
    N.DecimalRoundTrip(n);
  }

  lemma DecimalShape(n: nat)
    ensures N.Decimal(n) != "" && '_' !in N.Decimal(n)
  {
    N.DecimalRoundTrip(n);
  }

  lemma SuffixEqual(prefix: string, a: string, b: string)
    requires prefix + a == prefix + b
    ensures a == b
  {
    assert a == (prefix + a)[|prefix|..] && b == (prefix + b)[|prefix|..];
  }

  /** A string is cut at its first underscore in one way only. */
  lemma CutEqual(a: string, b: string, c: string, d: string)
    requires a + "_" + b == c + "_" + d && '_' !in a && '_' !in c
    ensures a == c && b == d
  {
    var s := a + "_" + b;
    assert s[|a|] == '_' && s[|c|] == '_';
    assert forall k :: 0 <= k < |a| ==> s[k] == a[k] != '_';
    assert forall k :: 0 <= k < |c| ==> s[k] == c[k] != '_';
    assert a == s[..|a|] && c == s[..|c|];
    assert b == s[|a| + 1..] && d == s[|c| + 1..];
  }

  /** Different variables have different identifiers: none captures another. */
  lemma IdentifiersDiffer(v: Variable, w: Variable)
    requires Identifier(v) == Identifier(w)
    ensures v == w
  {
    hide N.Decimal;
    FirstLetters(v);
    FirstLetters(w);
    match v {
      case Pass(n) => SuffixEqual("pass", N.Decimal(n), N.Decimal(w.n)); DecimalInjective(n, w.n);
      case Out(j) => SuffixEqual("out", N.Decimal(j), N.Decimal(w.j)); DecimalInjective(j, w.j);
      case HoleVar(k) => SuffixEqual("hole", N.Decimal(k), N.Decimal(w.k)); DecimalInjective(k, w.k);
      case Ret(k) => SuffixEqual("ret", N.Decimal(k), N.Decimal(w.k)); DecimalInjective(k, w.k);
      case In(_) => InsDiffer(v, w);
      case InOut(_, _) => InsDiffer(v, w);
      case StackVar(_) => StacksDiffer(v, w);
      case Memory => StacksDiffer(v, w);
      case TargetName(_, _) => TargetsDiffer(v, w);
      case Chosen => TargetsDiffer(v, w);
      case NextAddress =>
    }
  }

  lemma FirstLetters(v: Variable)
    ensures Identifier(v) != ""
    ensures Identifier(v)[0] == match v
      case Pass(_) => 'p' case In(_) => 'i' case Out(_) => 'o' case InOut(_, _) => 'i'
      case StackVar(_) => 's' case HoleVar(_) => 'h'
      case TargetName(_, _) => 't' case Chosen => 't' case NextAddress => '_' case Ret(_) => 'r' case Memory => 's'
  {
    hide N.Decimal;
  }

  lemma InsDiffer(v: Variable, w: Variable)
    requires (v.In? || v.InOut?) && (w.In? || w.InOut?) && Identifier(v) == Identifier(w)
    ensures v == w
  {
    hide N.Decimal;
    DecimalShape(v.i);
    DecimalShape(w.i);
    var (a, b) := (N.Decimal(v.i), N.Decimal(w.i));
    if v.In? && w.In? {
      SuffixEqual("in", a, b);
      DecimalInjective(v.i, w.i);
    } else if v.InOut? && w.InOut? {
      CutEqual("in" + a, "out" + N.Decimal(v.j), "in" + b, "out" + N.Decimal(w.j));
      SuffixEqual("in", a, b);
      SuffixEqual("out", N.Decimal(v.j), N.Decimal(w.j));
      DecimalInjective(v.i, w.i);
      DecimalInjective(v.j, w.j);
    } else if v.In? {
      OneHasUnderscore("in" + a, "in" + b, "out" + N.Decimal(w.j));
    } else {
      OneHasUnderscore("in" + b, "in" + a, "out" + N.Decimal(v.j));
    }
  }

  lemma OneHasUnderscore(plain: string, a: string, b: string)
    requires '_' !in plain
    ensures plain != a + "_" + b
  {
    assert (a + "_" + b)[|a|] == '_';
  }

  lemma StacksDiffer(v: Variable, w: Variable)
    requires (v.StackVar? || v.Memory?) && (w.StackVar? || w.Memory?) && Identifier(v) == Identifier(w)
    ensures v == w
  {
    hide N.Decimal;
    var a := if v.StackVar? then N.Decimal(v.k) else "";
    var b := if w.StackVar? then N.Decimal(w.k) else "";
    assert Identifier(v) == "stack" + a && Identifier(w) == "stack" + b;
    SuffixEqual("stack", a, b);
    if v.StackVar? {
      DecimalShape(v.k);
    }
    if w.StackVar? {
      DecimalShape(w.k);
    }
    if v.StackVar? && w.StackVar? {
      DecimalInjective(v.k, w.k);
    }
  }

  lemma TargetsDiffer(v: Variable, w: Variable)
    requires (v.TargetName? || v.Chosen?) && (w.TargetName? || w.Chosen?) && Identifier(v) == Identifier(w)
    ensures v == w
  {
    hide N.Decimal;
    if v.TargetName? {
      DecimalShape(v.k);
    }
    if w.TargetName? {
      DecimalShape(w.k);
    }
    if v.TargetName? && w.TargetName? {
      CutEqual("target" + N.Decimal(v.k), v.ident, "target" + N.Decimal(w.k), w.ident);
      SuffixEqual("target", N.Decimal(v.k), N.Decimal(w.k));
      DecimalInjective(v.k, w.k);
    }
  }

  // ----- the signature of a stencil -----

  /** Where the wrapper finds an operand: a register parameter, or the stack slot with this number. */
  datatype Wrapped = Reg(reg: nat) | Stk(index: nat)

  /** How many of the digits are zero. */
  function StackCount(digits: seq<nat>): nat {
    if digits == [] then 0 else StackCount(digits[..|digits| - 1]) + if digits[|digits| - 1] == 0 then 1 else 0
  }

  /** The operand `i` of an assignment: stack operands are numbered in order. */
  function WrappedAt(digits: seq<nat>, i: nat): Wrapped
    requires i < |digits|
  {
    if digits[i] == 0 then Stk(StackCount(digits[..i])) else Reg(digits[i] - 1)
  }

  /** What a register is for: it is passed through, or it holds the last operand that is in it. */
  datatype Use = PassThrough(n: nat) | Holds(operand: nat)

  function UseOf(args: seq<Wrapped>, reg: nat): Use {
    if args == [] then PassThrough(reg + 1)
    else if args[|args| - 1] == Reg(reg) then Holds(|args| - 1)
    else UseOf(args[..|args| - 1], reg)
  }

  /** `Regs::from_args`. */
  method FromArgs(args: seq<Wrapped>, registers: nat) returns (regs: seq<Use>)
    requires forall i :: 0 <= i < |args| && args[i].Reg? ==> args[i].reg < registers
    ensures |regs| == registers && forall r :: 0 <= r < registers ==> regs[r] == UseOf(args, r)
  {
    regs := seq(registers, _ => PassThrough(0));
    for r := 0 to registers
      invariant |regs| == registers && forall k :: 0 <= k < r ==> regs[k] == PassThrough(k + 1)
    {
      regs := regs[r := PassThrough(r + 1)];
    }
    for i := 0 to |args|
      invariant |regs| == registers && forall r :: 0 <= r < registers ==> regs[r] == UseOf(args[..i], r)
    {
      assert args[..i + 1][..i] == args[..i];
      match args[i] {
        case Reg(reg) => regs := regs[reg := Holds(i)];
        case Stk(_) =>
      }
    }
    assert args[..|args|] == args;
  }

  lemma {:induction false} UseOfSpec(args: seq<Wrapped>, reg: nat)
    ensures match UseOf(args, reg)
      case PassThrough(n) => n == reg + 1 && forall i :: 0 <= i < |args| ==> args[i] != Reg(reg)
      case Holds(i) => i < |args| && args[i] == Reg(reg) && forall k :: i < k < |args| ==> args[k] != Reg(reg)
  {
    if args != [] && args[|args| - 1] != Reg(reg) {
      UseOfSpec(args[..|args| - 1], reg);
    }
  }

  /** The name of a register parameter says what it is for. */
  function RegisterVariable(input: Use, output: Use): Variable {
    match (input, output)
    case (PassThrough(n), PassThrough(_)) => Pass(n)
    case (Holds(i), PassThrough(_)) => In(i)
    case (PassThrough(_), Holds(j)) => Out(j)
    case (Holds(i), Holds(j)) => InOut(i, j)
  }

  datatype Signature = Signature(inputs: nat, regNames: seq<Variable>, stackNames: seq<Variable>,
      operands: seq<Wrapped>)

  /** The signature for an assignment. */
  function SignatureOf(inputs: nat, digits: seq<nat>, registers: nat): (s: Signature)
    requires inputs <= |digits|
    ensures s.inputs == inputs && |s.regNames| == registers && |s.operands| == |digits|
    ensures |s.stackNames| == StackCount(digits)
    ensures forall i :: 0 <= i < |digits| ==> s.operands[i] == WrappedAt(digits, i)
    ensures forall k :: 0 <= k < |s.stackNames| ==> s.stackNames[k] == StackVar(k)
    ensures forall r :: 0 <= r < registers ==>
      s.regNames[r] == RegisterVariable(UseOf(s.operands[..inputs], r), UseOf(s.operands[inputs..], r))
  {
    var operands := seq(|digits|, i requires 0 <= i < |digits| => WrappedAt(digits, i));
    Signature(inputs,
              seq(registers, r requires 0 <= r < registers =>
                RegisterVariable(UseOf(operands[..inputs], r), UseOf(operands[inputs..], r))),
              seq(StackCount(digits), k requires 0 <= k < StackCount(digits) => StackVar(k)),
              operands)
  }

  /** `StencilSignature::new`: numbers the stack operands and names the registers. */
  method NewSignature(inputs: nat, digits: seq<nat>, registers: nat) returns (s: Signature)
    requires inputs <= |digits| && forall i :: 0 <= i < |digits| ==> digits[i] <= registers
    ensures s == SignatureOf(inputs, digits, registers)
  {
    hide UseOf;
    var stackNames: seq<Variable>, operands: seq<Wrapped> := [], [];
    for i := 0 to |digits|
      invariant |stackNames| == StackCount(digits[..i]) && forall k ::
        0 <= k < |stackNames| ==>
            stackNames[k] == StackVar(k)
      invariant |operands| == i && forall k :: 0 <= k < i ==> operands[k] == WrappedAt(digits, k)
    {
      assert digits[..i + 1][..i] == digits[..i];
      if digits[i] == 0 {
        operands := operands + [Stk(|stackNames|)];
        stackNames := stackNames + [StackVar(|stackNames|)];
      } else {
        operands := operands + [Reg(digits[i] - 1)];
      }
    }
    assert digits[..|digits|] == digits;
    var inRegs := FromArgs(operands[..inputs], registers);
    var outRegs := FromArgs(operands[inputs..], registers);
    var regNames := seq(registers, r requires 0 <= r < registers => RegisterVariable(inRegs[r], outRegs[r]));
    s := Signature(inputs, regNames, stackNames, operands);
    assert operands == SignatureOf(inputs, digits, registers).operands;
    SameSignature(s, SignatureOf(inputs, digits, registers));
  }

  lemma SameSignature(a: Signature, b: Signature)
    requires a.inputs == b.inputs && |a.regNames| == |b.regNames| && |a.stackNames| == |b.stackNames|
    requires |a.operands| == |b.operands|
    requires forall r :: 0 <= r < |a.regNames| ==> a.regNames[r] == b.regNames[r]
    requires forall k :: 0 <= k < |a.stackNames| ==> a.stackNames[k] == b.stackNames[k]
    requires forall i :: 0 <= i < |a.operands| ==> a.operands[i] == b.operands[i]
    ensures a == b
  {
  }

  /** All register parameters have different names, also when inputs share a register. */
  lemma RegisterNamesDiffer(inputs: nat, digits: seq<nat>, registers: nat, r: nat, r': nat)
    requires inputs <= |digits| && r < registers && r' < registers
    requires var s := SignatureOf(inputs, digits, registers); Identifier(s.regNames[r]) == Identifier(s.regNames[r'])
    ensures r == r'
  {
    hide Identifier, UseOf, SignatureOf;
    var s := SignatureOf(inputs, digits, registers);
    IdentifiersDiffer(s.regNames[r], s.regNames[r']);
    UseOfSpec(s.operands[..inputs], r);
    UseOfSpec(s.operands[..inputs], r');
    UseOfSpec(s.operands[inputs..], r);
    UseOfSpec(s.operands[inputs..], r');
  }

  /** Operand `i` is the last one from `from` up to `to` in register `r`. */
  ghost predicate LastIn(digits: seq<nat>, from: nat, to: nat, r: nat, i: nat)
    requires to <= |digits|
  {
    from <= i < to && digits[i] == r + 1 && forall k :: i < k < to ==> digits[k] != r + 1
  }

  ghost predicate NoneIn(digits: seq<nat>, from: nat, to: nat, r: nat)
    requires to <= |digits|
  {
    forall k :: from <= k < to ==> digits[k] != r + 1
  }

  lemma UseIn(digits: seq<nat>, from: nat, args: seq<Wrapped>, r: nat)
    requires from + |args| <= |digits|
    requires forall k :: 0 <= k < |args| ==> (args[k] == Reg(r) <==> digits[from + k] == r + 1)
    ensures match UseOf(args, r)
      case PassThrough(n) => n == r + 1 && NoneIn(digits, from, from + |args|, r)
      case Holds(i) => LastIn(digits, from, from + |args|, r, from + i)
  {
    hide UseOf;
    UseOfSpec(args, r);
    forall k | from <= k < from + |args| ensures args[k - from] == Reg(r) <==> digits[k] == r + 1 {
    }
  }

  lemma OperandInRegister(digits: seq<nat>, i: nat, r: nat)
    requires i < |digits|
    ensures WrappedAt(digits, i) == Reg(r) <==> digits[i] == r + 1
  {
    hide StackCount;
  }

  /** A register is named after the last input and the last output that the assignment puts in it; if there is none,
      after its number, from one. */
  lemma RegisterNamed(inputs: nat, digits: seq<nat>, registers: nat, r: nat)
    requires inputs <= |digits| && r < registers
    ensures match SignatureOf(inputs, digits, registers).regNames[r]
      case Pass(n) => n == r + 1 && NoneIn(digits, 0, inputs, r) && NoneIn(digits, inputs, |digits|, r)
      case In(i) => LastIn(digits, 0, inputs, r, i) && NoneIn(digits, inputs, |digits|, r)
      case Out(j) => NoneIn(digits, 0, inputs, r) && LastIn(digits, inputs, |digits|, r, inputs + j)
      case InOut(i, j) => LastIn(digits, 0, inputs, r, i) && LastIn(digits, inputs, |digits|, r, inputs + j)
      case _ => false
  {
    hide UseOf, WrappedAt, NoneIn, LastIn;
    var s := SignatureOf(inputs, digits, registers);
    var (ins, outs) := (s.operands[..inputs], s.operands[inputs..]);
    forall k | 0 <= k < |digits| ensures s.operands[k] == Reg(r) <==> digits[k] == r + 1 {
      OperandInRegister(digits, k, r);
    }
    UseIn(digits, 0, ins, r);
    UseIn(digits, inputs, outs, r);
  }

  // ----- the wrapper -----

  datatype CallArg = Arg(i: nat) | HoleArg(k: nat) | MemoryArg | TargetArg(k: nat)

  /** How a stencil goes on: to the next one, out of the program, to one of its targets, or to an address. */
  datatype Kind = Plain | Returning(results: nat) | Branching(targets: seq<string>) | Trampoline

  /** The body of a stencil: its parameters, and how many outputs it has (none if it branches or returns). */
  datatype Body = Body(args: seq<CallArg>, inputs: nat, outputs: nat, holes: nat, kind: Kind)
  {
    predicate Ok() {
      && (forall n :: 0 <= n < |args| ==>
            match args[n]
            case Arg(i) => i < inputs
            case HoleArg(k) => k < holes
            case MemoryArg => true
            case TargetArg(k) => kind.Branching? && k < |kind.targets|)
      && (!kind.Plain? ==> outputs == 0)
    }
  }

  /** What a binding at the start of the wrapper reads. */
  datatype Source = FromHole(k: nat) | FromStack(k: nat) | FromTarget(k: nat)

  datatype Binding = Binding(variable: Variable, source: Source)

  /** Store the variable in the stack slot with this number. */
  datatype Store = Store(k: nat, variable: Variable)

  /** The generated function: bindings, the call and the variables for its results, stores, the arguments
      that are passed on, and the variables that choose how to go on, or that are returned. */
  datatype Wrapper = Wrapper(
    params: seq<Variable>,
    inits: seq<Binding>,
    callArgs: seq<Variable>,
    results: seq<Variable>,
    stores: seq<Store>,
    next: seq<Variable>,
    exit: seq<Variable>)

  function OperandVariable(s: Signature, i: nat): Variable
    requires i < |s.operands| && (s.operands[i].Reg? ==> s.operands[i].reg < |s.regNames|)
  {
    match s.operands[i]
    case Reg(r) => s.regNames[r]
    case Stk(k) => StackVar(k)
  }

  predicate SignatureOk(s: Signature) {
    s.inputs <= |s.operands| && forall i ::
      0 <= i < |s.operands| && s.operands[i].Reg?
      ==> s.operands[i].reg < |s.regNames|
  }

  function CallVariable(b: Body, s: Signature, a: CallArg): Variable
    requires SignatureOk(s) && b.inputs == s.inputs
    requires a.Arg? ==> a.i < b.inputs
    requires a.TargetArg? ==> b.kind.Branching? && a.k < |b.kind.targets|
  {
    match a
    case Arg(i) => OperandVariable(s, i)
    case HoleArg(k) => HoleVar(k)
    case MemoryArg => Memory
    case TargetArg(k) => TargetName(k, b.kind.targets[k])
  }

  function HoleInits(n: nat): (r: seq<Binding>)
    ensures |r| == n && forall k :: 0 <= k < n ==> r[k] == Binding(HoleVar(k), FromHole(k))
  {
    seq(n, k requires 0 <= k < n => Binding(HoleVar(k), FromHole(k)))
  }

  /** A load for each stack operand among the first `n`. */
  function StackInits(operands: seq<Wrapped>, n: nat): seq<Binding>
    requires n <= |operands|
  {
    if n == 0 then []
    else StackInits(operands, n - 1) + match operands[n - 1]
      case Stk(k) => [Binding(StackVar(k), FromStack(k))]
      case Reg(_) => []
  }

  function TargetInits(targets: seq<string>): (r: seq<Binding>)
    ensures |r| == |targets| && forall k :: 0 <= k < |r| ==> r[k] == Binding(TargetName(k, targets[k]), FromTarget(k))
  {
    seq(|targets|, k requires 0 <= k < |targets| => Binding(TargetName(k, targets[k]), FromTarget(k)))
  }

  /** A store for each stack operand among the first `n` outputs. */
  function Stores(outputs: seq<Wrapped>, n: nat): seq<Store>
    requires n <= |outputs|
  {
    if n == 0 then []
    else Stores(outputs, n - 1) + match outputs[n - 1]
      case Stk(k) => [Store(k, StackVar(k))]
      case Reg(_) => []
  }

  function Results(b: Body, s: Signature): seq<Variable>
    requires SignatureOk(s)
  {
    match b.kind
    case Plain =>
      seq(|s.operands| - s.inputs, j requires 0 <= j < |s.operands| - s.inputs => OperandVariable(s, s.inputs + j))
    case Returning(n) => seq(n, j requires 0 <= j < n => Ret(j))
    case Branching(_) => [Chosen]
    case Trampoline => [NextAddress]
  }

  function WrapperOf(b: Body, s: Signature): Wrapper
    requires b.Ok() && SignatureOk(s) && b.inputs == s.inputs
  {
    Wrapper(s.regNames,
            HoleInits(b.holes) + StackInits(s.operands, s.inputs)
              + (if b.kind.Branching? then TargetInits(b.kind.targets) else []),
            seq(|b.args|, n requires 0 <= n < |b.args| => CallVariable(b, s, b.args[n])),
            Results(b, s),
            Stores(s.operands[s.inputs..], |s.operands| - s.inputs),
            if b.kind.Returning? then [] else s.regNames,
            if b.kind.Plain? then [] else Results(b, s))
  }

  // ----- running it -----

  /** Registers and the stack. */
  datatype Machine = Machine(regs: seq<Word>, stack: seq<Word>)

  /** What the body of a stencil does with its arguments and the stack: its results, and the stack afterwards. */
  datatype Effect = Effect(results: seq<Word>, stack: seq<Word>)

  /** Control goes on with these registers and this stack; the results say which target or address is
      next, or are what is returned. */
  datatype Outcome = Outcome(machine: Machine, results: seq<Word>)

  type Environment = map<Variable, Word>

  function Lookup(env: Environment, v: Variable): Word {
    if v in env then env[v] else 0
  }

  /** Bindings one after the other; later ones shadow earlier ones. */
  function Bind(env: Environment, vars: seq<Variable>, values: seq<Word>): Environment
    requires |vars| == |values|
  {
    if vars == [] then env
    else Bind(env, vars[..|vars| - 1], values[..|vars| - 1])[vars[|vars| - 1] := values[|vars| - 1]]
  }

  function ValueOf(source: Source, holes: seq<Word>, slots: seq<nat>, stack: seq<Word>): Word {
    match source
    case FromHole(k) => if k < |holes| then holes[k] else 0
    case FromStack(k) => if k < |slots| && slots[k] < |stack| then stack[slots[k]] else 0
    case FromTarget(k) => k % WORD
  }

  function InitVars(inits: seq<Binding>): (r: seq<Variable>)
    ensures |r| == |inits| && forall k :: 0 <= k < |r| ==> r[k] == inits[k].variable
  {
    seq(|inits|, k requires 0 <= k < |inits| => inits[k].variable)
  }

  function InitValues(inits: seq<Binding>, holes: seq<Word>, slots: seq<nat>, stack: seq<Word>): (r: seq<Word>)
    ensures |r| == |inits| && forall k :: 0 <= k < |r| ==> r[k] == ValueOf(inits[k].source, holes, slots, stack)
  {
    seq(|inits|, k requires 0 <= k < |inits| => ValueOf(inits[k].source, holes, slots, stack))
  }

  function LookupAll(env: Environment, vars: seq<Variable>): (r: seq<Word>)
    ensures |r| == |vars| && forall k :: 0 <= k < |r| ==> r[k] == Lookup(env, vars[k])
  {
    seq(|vars|, k requires 0 <= k < |vars| => Lookup(env, vars[k]))
  }

  function StoreAll(env: Environment, stores: seq<Store>, slots: seq<nat>, stack: seq<Word>): (r: seq<Word>)
    ensures |r| == |stack|
  {
    if stores == [] then stack
    else
      var before := StoreAll(env, stores[..|stores| - 1], slots, stack);
      var s := stores[|stores| - 1];
      if s.k < |slots| && slots[s.k] < |before| then before[slots[s.k] := Lookup(env, s.variable)] else before
  }

  type Behaviour = (seq<Word>, seq<Word>) -> Effect

  ghost predicate BehaviourOk(f: Behaviour, results: nat) {
    forall args, stack :: |f(args, stack).results| == results && |f(args, stack).stack| == |stack|
  }

  function ResultCount(b: Body): nat {
    match b.kind
    case Plain => b.outputs
    case Returning(n) => n
    case _ => 1
  }

  /** Runs the wrapper, with the slots that the linker writes into the numbered stack fields. */
  ghost function Run(w: Wrapper, f: Behaviour, m: Machine, holes: seq<Word>, slots: seq<nat>): Outcome
    requires |w.params| == |m.regs| && BehaviourOk(f, |w.results|)
  {
    var env := Bind(Bind(map[], w.params, m.regs), InitVars(w.inits), InitValues(w.inits, holes, slots, m.stack));
    var effect := f(LookupAll(env, w.callArgs), m.stack);
    var env' := Bind(env, w.results, effect.results);
    Outcome(Machine(LookupAll(env', w.next), StoreAll(env', w.stores, slots, effect.stack)), LookupAll(env', w.exit))
  }

  // ----- the simple semantics -----

  function Read(m: Machine, l: Location): Word {
    match l
    case Stack(slot) => if slot < |m.stack| then m.stack[slot] else 0
    case Register(r) => if r < |m.regs| then m.regs[r] else 0
  }

  function WriteTo(m: Machine, l: Location, value: Word): (r: Machine)
    ensures |r.regs| == |m.regs| && |r.stack| == |m.stack|
  {
    match l
    case Stack(slot) => if slot < |m.stack| then m.(stack := m.stack[slot := value]) else m
    case Register(r) => if r < |m.regs| then m.(regs := m.regs[r := value]) else m
  }

  function WriteOutputs(m: Machine, outputs: seq<Location>, values: seq<Word>): (r: Machine)
    requires |outputs| == |values|
    ensures |r.regs| == |m.regs| && |r.stack| == |m.stack|
  {
    if outputs == [] then m
    else
      var n := |outputs| - 1;
      WriteTo(WriteOutputs(m, outputs[..n], values[..n]), outputs[n], values[n])
  }

  function ArgValue(a: CallArg, m: Machine, inputs: seq<Location>, holes: seq<Word>): Word
    requires a.Arg? ==> a.i < |inputs|
    requires a.HoleArg? ==> a.k < |holes|
  {
    match a
    case Arg(i) => Read(m, inputs[i])
    case HoleArg(k) => holes[k]
    case MemoryArg => 0
    case TargetArg(k) => k % WORD
  }

  /** Reads the inputs from their locations, runs the body, and writes the outputs to theirs; everything else stays. */
  ghost function Meaning(b: Body, f: Behaviour, m: Machine, inputs: seq<Location>, outputs: seq<Location>,
                         holes: seq<Word>): Outcome
    requires b.Ok() && |inputs| == b.inputs && |outputs| == b.outputs && |holes| == b.holes
    requires BehaviourOk(f, ResultCount(b))
  {
    var args := seq(|b.args|, n requires 0 <= n < |b.args| => ArgValue(b.args[n], m, inputs, holes));
    var effect := f(args, m.stack);
    var after := Machine(m.regs, effect.stack);
    match b.kind
    case Plain => Outcome(WriteOutputs(after, outputs, effect.results), [])
    case Returning(_) => Outcome(after.(regs := []), effect.results)
    case _ => Outcome(after, effect.results)
  }

  // ----- bindings -----

  /** A variable that is bound to one value only has that value. */
  lemma {:induction false} BoundTo(env: Environment, vars: seq<Variable>, values: seq<Word>, v: Variable, x: Word)
    requires |vars| == |values| && v in vars && forall k :: 0 <= k < |vars| && vars[k] == v ==> values[k] == x
    ensures Lookup(Bind(env, vars, values), v) == x
  {
    var n := |vars| - 1;
    if vars[n] != v {
      assert vars == vars[..n] + [vars[n]];
      BoundTo(env, vars[..n], values[..n], v, x);
    }
  }

  lemma {:induction false} NotBound(env: Environment, vars: seq<Variable>, values: seq<Word>, v: Variable)
    requires |vars| == |values| && v !in vars
    ensures Lookup(Bind(env, vars, values), v) == Lookup(env, v)
  {
    if vars != [] {
      NotBound(env, vars[..|vars| - 1], values[..|vars| - 1], v);
    }
  }

  /** Each bound variable stands for its own source. */
  predicate SourceFits(b: Binding) {
    match b.source
    case FromHole(k) => b.variable == HoleVar(k)
    case FromStack(k) => b.variable == StackVar(k)
    case FromTarget(k) => b.variable.TargetName? && b.variable.k == k
  }

  lemma {:induction false} StackInitsFit(operands: seq<Wrapped>, n: nat)
    requires n <= |operands|
    ensures forall k :: 0 <= k < |StackInits(operands, n)| ==>
        StackInits(operands, n)[k].source.FromStack?
        && SourceFits(StackInits(operands, n)[k])
    ensures forall i ::
      0 <= i < n && operands[i].Stk? ==>
          Binding(StackVar(operands[i].index), FromStack(operands[i].index)) in StackInits(operands, n)
  {
    if n > 0 {
      StackInitsFit(operands, n - 1);
    }
  }

  /** What a load or a hole binding gives, wherever it is in the list. */
  lemma InitBound(env: Environment, inits: seq<Binding>, holes: seq<Word>, slots: seq<nat>, stack: seq<Word>,
                  b: Binding)
    requires b in inits && SourceFits(b) && forall k :: 0 <= k < |inits| ==> SourceFits(inits[k])
    ensures Lookup(Bind(env, InitVars(inits), InitValues(inits, holes, slots, stack)), b.variable)
        == ValueOf(b.source, holes, slots, stack)
  {
    hide ValueOf;
    var k :| 0 <= k < |inits| && inits[k] == b;
    assert InitVars(inits)[k] == b.variable;
    BoundTo(env, InitVars(inits), InitValues(inits, holes, slots, stack), b.variable,
      ValueOf(b.source, holes, slots, stack));
  }

  predicate IsRegister(v: Variable) {
    v.Pass? || v.In? || v.Out? || v.InOut?
  }

  /** The bindings of a wrapper. */
  lemma InitsFit(b: Body, s: Signature)
    requires b.Ok() && SignatureOk(s) && b.inputs == s.inputs
    ensures var inits := WrapperOf(b, s).inits;
      && (forall k :: 0 <= k < |inits| ==> SourceFits(inits[k]))
      && (forall k :: 0 <= k < b.holes ==> Binding(HoleVar(k), FromHole(k)) in inits)
      && (forall i ::
           0 <= i < s.inputs && s.operands[i].Stk?
           ==> Binding(StackVar(s.operands[i].index), FromStack(s.operands[i].index)) in inits)
      && (b.kind.Branching? ==> forall k ::
           0 <= k < |b.kind.targets|
           ==> Binding(TargetName(k, b.kind.targets[k]), FromTarget(k)) in inits)
  {
    StackInitsFit(s.operands, s.inputs);
    var (h, t) := (HoleInits(b.holes), if b.kind.Branching? then TargetInits(b.kind.targets) else []);
    var inits := WrapperOf(b, s).inits;
    assert inits == h + StackInits(s.operands, s.inputs) + t;
    forall k | 0 <= k < b.holes ensures Binding(HoleVar(k), FromHole(k)) in inits {
      assert h[k] in inits;
    }
    if b.kind.Branching? {
      forall k | 0 <= k < |b.kind.targets| ensures Binding(TargetName(k, b.kind.targets[k]), FromTarget(k)) in inits {
        assert t[k] in inits;
      }
    }
  }

  // ----- the numbers of the stack fields -----

  /** The field numbered for a stack operand gets, from the linker, the slot of that operand. */
  lemma {:induction false} SlotOfOperand(locations: seq<Location>, i: nat)
    requires i < |locations| && locations[i].Stack?
    ensures var k := StackCount(Extraction.Bits(locations)[..i]);
      k < |StackVars(locations)| && StackVars(locations)[k] == locations[i].slot
    decreases |locations|
  {
    var n := |locations| - 1;
    var bits := Extraction.Bits(locations);
    assert Extraction.Bits(locations[..n]) == bits[..n];
    CountIsLength(locations[..n]);
    if i < n {
      assert bits[..n][..i] == bits[..i];
      SlotOfOperand(locations[..n], i);
    }
  }

  lemma {:induction false} CountIsLength(locations: seq<Location>)
    ensures StackCount(Extraction.Bits(locations)) == |StackVars(locations)|
  {
    if locations != [] {
      var n := |locations| - 1;
      assert Extraction.Bits(locations[..n]) == Extraction.Bits(locations)[..n];
      CountIsLength(locations[..n]);
    }
  }

  lemma {:induction false} CountGrows(digits: seq<nat>, i: nat, j: nat)
    requires i < j <= |digits| && digits[i] == 0
    ensures StackCount(digits[..i]) < StackCount(digits[..j])
    decreases j
  {
    assert digits[..j][..j - 1] == digits[..j - 1];
    if i < j - 1 {
      CountGrows(digits, i, j - 1);
    }
  }

  // ----- the wrapper does what it should -----

  predicate SlotsIn(locations: seq<Location>, size: nat) {
    forall i :: 0 <= i < |locations| && locations[i].Stack? ==> locations[i].slot < size
  }

  /** Operands of the right number, in registers and slots that exist, no two outputs in one register. */
  predicate OperandsFit(b: Body, m: Machine, inputs: seq<Location>, outputs: seq<Location>, holes: seq<Word>) {
    && b.Ok() && |inputs| == b.inputs && |outputs| == b.outputs && |holes| == b.holes
    && Assignment(Extraction.Bits(inputs + outputs), b.inputs, b.outputs, |m.regs| + 1)
    && SlotsIn(inputs + outputs, |m.stack|)
  }

  /** The signature of the wrapper for these locations. */
  function SignatureFor(m: Machine, inputs: seq<Location>, outputs: seq<Location>): Signature {
    SignatureOf(|inputs|, Extraction.Bits(inputs + outputs), |m.regs|)
  }

  /** How the operand at `i` is wrapped, in terms of its location. */
  lemma OperandWrapped(b: Body, m: Machine, inputs: seq<Location>, outputs: seq<Location>, holes: seq<Word>, i: nat)
    requires OperandsFit(b, m, inputs, outputs, holes) && i < |inputs| + |outputs|
    ensures var (s, l, slots) := (SignatureFor(m, inputs, outputs), (inputs + outputs)[i], StackVars(inputs + outputs));
      && |s.operands| == |inputs| + |outputs|
      && match s.operands[i]
         case Reg(r) => l == Register(r) && r < |m.regs|
         case Stk(k) =>
           l.Stack? && k < |slots| && slots[k] == l.slot < |m.stack|
           && k == StackCount(Extraction.Bits(inputs + outputs)[..i])
  {
    hide StackVars, StackCount;
    var locations := inputs + outputs;
    if locations[i].Stack? {
      SlotOfOperand(locations, i);
    }
  }

  lemma SignatureFits(b: Body, m: Machine, inputs: seq<Location>, outputs: seq<Location>, holes: seq<Word>)
    requires OperandsFit(b, m, inputs, outputs, holes)
    ensures var s := SignatureFor(m, inputs, outputs);
      SignatureOk(s) && s.inputs == b.inputs && |s.regNames| == |m.regs| && |s.operands| == |inputs| + |outputs|
  {
    hide OperandsFit, StackVars, StackCount, Extraction.Bits;
    FitLengths(b, m, inputs, outputs, holes);
    var s := SignatureFor(m, inputs, outputs);
    forall i | 0 <= i < |s.operands| && s.operands[i].Reg? ensures s.operands[i].reg < |s.regNames| {
      OperandWrapped(b, m, inputs, outputs, holes, i);
    }
  }

  lemma FitLengths(b: Body, m: Machine, inputs: seq<Location>, outputs: seq<Location>, holes: seq<Word>)
    requires OperandsFit(b, m, inputs, outputs, holes)
    ensures b.Ok() && |inputs| == b.inputs && |outputs| == b.outputs && |holes| == b.holes
    ensures |Extraction.Bits(inputs + outputs)| == |inputs| + |outputs|
  {
  }

  /** Outputs are bound to different variables. */
  lemma OutputsDiffer(b: Body, m: Machine, inputs: seq<Location>, outputs: seq<Location>, holes: seq<Word>, j: nat,
                      j': nat)
    requires OperandsFit(b, m, inputs, outputs, holes) && j < |outputs| && j' < |outputs|
    requires SignatureOk(SignatureFor(m, inputs, outputs))
    requires |SignatureFor(m, inputs, outputs).operands| == |inputs| + |outputs|
    requires var s := SignatureFor(m, inputs, outputs);
      OperandVariable(s, |inputs| + j) == OperandVariable(s, |inputs| + j')
    ensures j == j'
  {
    hide UseOf, StackCount, StackVars;
    var s, bits := SignatureFor(m, inputs, outputs), Extraction.Bits(inputs + outputs);
    var (i, i') := (|inputs| + j, |inputs| + j');
    match (s.operands[i], s.operands[i']) {
      case (Reg(r), Reg(r')) =>
        RegisterNamesDiffer(|inputs|, bits, |m.regs|, r, r');
        assert bits[i] == bits[i'] != 0;
      case (Stk(k), Stk(k')) =>
        if i < i' {
          CountGrows(bits, i, i');
        } else if i' < i {
          CountGrows(bits, i', i);
        }
      case (_, _) =>
    }
  }

  // ----- before the call -----

  function EnvBefore(w: Wrapper, m: Machine, holes: seq<Word>, slots: seq<nat>): Environment
    requires |w.params| == |m.regs|
  {
    Bind(Bind(map[], w.params, m.regs), InitVars(w.inits), InitValues(w.inits, holes, slots, m.stack))
  }

  lemma RegisterBefore(b: Body, s: Signature, m: Machine, holes: seq<Word>, slots: seq<nat>, digits: seq<nat>, r: nat)
    requires b.Ok() && SignatureOk(s) && b.inputs == s.inputs <= |digits|
    requires s == SignatureOf(b.inputs, digits, |m.regs|) && r < |m.regs|
    ensures Lookup(EnvBefore(WrapperOf(b, s), m, holes, slots), s.regNames[r]) == m.regs[r]
  {
    hide UseOf, Identifier, ValueOf, Bind, SignatureOf, Lookup;
    var w := WrapperOf(b, s);
    InitsFit(b, s);
    assert IsRegister(s.regNames[r]);
    NotBound(Bind(map[], w.params, m.regs), InitVars(w.inits), InitValues(w.inits, holes, slots, m.stack),
      s.regNames[r]);
    forall k | 0 <= k < |m.regs| && s.regNames[k] == s.regNames[r] ensures m.regs[k] == m.regs[r] {
      RegisterNamesDiffer(b.inputs, digits, |m.regs|, k, r);
    }
    BoundTo(map[], w.params, m.regs, s.regNames[r], m.regs[r]);
  }

  lemma MemoryBefore(b: Body, s: Signature, m: Machine, holes: seq<Word>, slots: seq<nat>)
    requires b.Ok() && SignatureOk(s) && b.inputs == s.inputs && |s.regNames| == |m.regs|
    requires forall r :: 0 <= r < |s.regNames| ==> IsRegister(s.regNames[r])
    ensures Lookup(EnvBefore(WrapperOf(b, s), m, holes, slots), Memory) == 0
  {
    hide ValueOf, Bind;
    var w := WrapperOf(b, s);
    InitsFit(b, s);
    NotBound(Bind(map[], w.params, m.regs), InitVars(w.inits), InitValues(w.inits, holes, slots, m.stack), Memory);
    NotBound(map[], w.params, m.regs, Memory);
  }

  /** Every argument of the call has the value it should have. */
  lemma ArgumentRight(b: Body, m: Machine, inputs: seq<Location>, outputs: seq<Location>, holes: seq<Word>, n: nat)
    requires OperandsFit(b, m, inputs, outputs, holes) && SignatureOk(SignatureFor(m, inputs, outputs)) && n < |b.args|
    ensures SignatureFor(m, inputs, outputs).inputs == b.inputs
    ensures |SignatureFor(m, inputs, outputs).regNames| == |m.regs|
    ensures var s := SignatureFor(m, inputs, outputs);
      Lookup(EnvBefore(WrapperOf(b, s), m, holes, StackVars(inputs + outputs)), WrapperOf(b, s).callArgs[n])
      == ArgValue(b.args[n], m, inputs, holes)
  {
    hide UseOf, StackVars, StackCount, Bind, InitVars, InitValues, Assignment;
    var (s, slots) := (SignatureFor(m, inputs, outputs), StackVars(inputs + outputs));
    var w := WrapperOf(b, s);
    InitsFit(b, s);
    var env0 := Bind(map[], w.params, m.regs);
    match b.args[n] {
      case Arg(i) =>
        OperandWrapped(b, m, inputs, outputs, holes, i);
        match s.operands[i] {
          case Reg(r) => RegisterBefore(b, s, m, holes, slots, Extraction.Bits(inputs + outputs), r);
          case Stk(k) => InitBound(env0, w.inits, holes, slots, m.stack, Binding(StackVar(k), FromStack(k)));
        }
      case HoleArg(k) => InitBound(env0, w.inits, holes, slots, m.stack, Binding(HoleVar(k), FromHole(k)));
      case MemoryArg => MemoryBefore(b, s, m, holes, slots);
      case TargetArg(k) => InitBound(env0, w.inits, holes, slots, m.stack,
        Binding(TargetName(k, b.kind.targets[k]), FromTarget(k)));
    }
  }

  // ----- after the call -----

  /** A stencil that goes on with the next one: what its variables stand for after the call. */
  lemma OutputAfter(b: Body, m: Machine, inputs: seq<Location>, outputs: seq<Location>, holes: seq<Word>,
                    env: Environment, results: seq<Word>, j: nat)
    requires OperandsFit(b, m, inputs, outputs, holes) && SignatureOk(SignatureFor(m, inputs, outputs)) && b.kind.Plain?
    requires |results| == |outputs| == |Results(b, SignatureFor(m, inputs, outputs))| && j < |outputs|
    requires |SignatureFor(m, inputs, outputs).operands| == |inputs| + |outputs|
    ensures var s := SignatureFor(m, inputs, outputs);
      Lookup(Bind(env, Results(b, s), results), OperandVariable(s, |inputs| + j)) == results[j]
  {
    hide UseOf, StackVars, StackCount, Bind, Assignment, OperandVariable, SignatureOf;
    var s := SignatureFor(m, inputs, outputs);
    var vars := Results(b, s);
    assert vars[j] == OperandVariable(s, |inputs| + j);
    forall k | 0 <= k < |vars| && vars[k] == vars[j] ensures results[k] == results[j] {
      OutputsDiffer(b, m, inputs, outputs, holes, k, j);
    }
    BoundTo(env, vars, results, vars[j], results[j]);
  }

  /** A register without output keeps its value. */
  lemma RegisterAfter(b: Body, m: Machine, inputs: seq<Location>, outputs: seq<Location>, holes: seq<Word>,
                      env: Environment, results: seq<Word>, r: nat)
    requires OperandsFit(b, m, inputs, outputs, holes) && SignatureOk(SignatureFor(m, inputs, outputs)) && r < |m.regs|
    requires |SignatureFor(m, inputs, outputs).operands| == |inputs| + |outputs|
    requires |results| == |Results(b, SignatureFor(m, inputs, outputs))|
    requires Reg(r) !in SignatureFor(m, inputs, outputs).operands[|inputs|..]
    ensures var s := SignatureFor(m, inputs, outputs);
      Lookup(Bind(env, Results(b, s), results), s.regNames[r]) == Lookup(env, s.regNames[r])
  {
    hide UseOf, StackVars, StackCount, Bind, Assignment, Identifier;
    var s := SignatureFor(m, inputs, outputs);
    var vars := Results(b, s);
    forall k | 0 <= k < |vars| ensures vars[k] != s.regNames[r] {
      assert b.kind.Plain? ==> s.operands[|inputs|..][k] == s.operands[|inputs| + k];
      if b.kind.Plain? && s.operands[|inputs| + k].Reg? && vars[k] == s.regNames[r] {
        RegisterNamesDiffer(|inputs|, Extraction.Bits(inputs + outputs), |m.regs|, s.operands[|inputs| + k].reg, r);
      }
    }
    NotBound(env, vars, results, s.regNames[r]);
  }

  // ----- the stores -----

  lemma StoreOneMore(env: Environment, stores: seq<Store>, s: Store, slots: seq<nat>, stack: seq<Word>)
    ensures var before := StoreAll(env, stores, slots, stack);
      StoreAll(env, stores + [s], slots, stack)
      == if s.k < |slots| && slots[s.k] < |before| then before[slots[s.k] := Lookup(env, s.variable)] else before
  {
    hide Lookup;
    assert (stores + [s])[..|stores + [s]| - 1] == stores;
  }

  lemma WriteOneMore(m: Machine, outputs: seq<Location>, values: seq<Word>, n: nat)
    requires 0 < n <= |outputs| == |values|
    ensures WriteOutputs(m, outputs[..n], values[..n])
      == WriteTo(WriteOutputs(m, outputs[..n - 1], values[..n - 1]), outputs[n - 1], values[n - 1])
  {
    hide WriteTo;
    assert outputs[..n][..n - 1] == outputs[..n - 1] && values[..n][..n - 1] == values[..n - 1];
  }

  /** The stores of the wrapper write the stack as the locations of the outputs say. */
  lemma {:induction false} StoresWrite(env: Environment, wrapped: seq<Wrapped>, outputs: seq<Location>,
                                       values: seq<Word>, slots: seq<nat>, m: Machine, n: nat)
    requires |wrapped| == |outputs| == |values| && n <= |outputs|
    requires forall j :: 0 <= j < n ==> match wrapped[j]
      case Reg(r) => outputs[j] == Register(r)
      case Stk(k) => outputs[j].Stack? && k < |slots| && slots[k] == outputs[j].slot < |m.stack|
                     && Lookup(env, StackVar(k)) == values[j]
    ensures StoreAll(env, Stores(wrapped, n), slots, m.stack) == WriteOutputs(m, outputs[..n], values[..n]).stack
  {
    hide StoreAll, WriteOutputs, Lookup;
    if n == 0 {
      NoStores(env, wrapped, slots, m.stack);
      NoOutputs(m);
    } else {
      StoresWrite(env, wrapped, outputs, values, slots, m, n - 1);
      WriteOneMore(m, outputs, values, n);
      match wrapped[n - 1] {
        case Stk(k) => StoreOneMore(env, Stores(wrapped, n - 1), Store(k, StackVar(k)), slots, m.stack);
        case Reg(_) => assert Stores(wrapped, n) == Stores(wrapped, n - 1);
      }
    }
  }

  lemma NoStores(env: Environment, wrapped: seq<Wrapped>, slots: seq<nat>, stack: seq<Word>)
    ensures StoreAll(env, Stores(wrapped, 0), slots, stack) == stack
  {
  }

  lemma NoOutputs(m: Machine)
    ensures WriteOutputs(m, [], []) == m
  {
  }

  /** The last output in a register decides its value. */
  lemma {:induction false} RegistersWritten(wrapped: seq<Wrapped>, outputs: seq<Location>, values: seq<Word>,
                                            m: Machine, r: nat, n: nat)
    requires |wrapped| == |outputs| == |values| && n <= |outputs| && r < |m.regs|
    requires forall j :: 0 <= j < n ==> match wrapped[j]
      case Reg(q) => outputs[j] == Register(q)
      case Stk(_) => outputs[j].Stack?
    ensures WriteOutputs(m, outputs[..n], values[..n]).regs[r] ==
      match UseOf(wrapped[..n], r)
      case PassThrough(_) => m.regs[r]
      case Holds(j) => if j < |values| then values[j] else 0
  {
    if n > 0 {
      RegistersWritten(wrapped, outputs, values, m, r, n - 1);
      assert outputs[..n][..n - 1] == outputs[..n - 1] && values[..n][..n - 1] == values[..n - 1]
          && wrapped[..n][..n - 1] == wrapped[..n - 1];
    }
  }

  // ----- the theorem -----

  /** The wrapper can be run with such a body. */
  lemma RunReady(b: Body, m: Machine, inputs: seq<Location>, outputs: seq<Location>, holes: seq<Word>)
    requires OperandsFit(b, m, inputs, outputs, holes)
    ensures SignatureOk(SignatureFor(m, inputs, outputs)) && SignatureFor(m, inputs, outputs).inputs == b.inputs
    ensures var w := WrapperOf(b, SignatureFor(m, inputs, outputs));
      |w.params| == |m.regs|
        && |w.results| == ResultCount(b)
    ensures |SignatureFor(m, inputs, outputs).operands| == |inputs| + |outputs|
    ensures |SignatureFor(m, inputs, outputs).regNames| == |m.regs|
  {
    hide UseOf, StackVars, StackCount, Assignment;
    SignatureFits(b, m, inputs, outputs, holes);
  }

  /** All registers after the call, as they are passed on. */
  lemma RegistersAgree(b: Body, m: Machine, inputs: seq<Location>, outputs: seq<Location>, holes: seq<Word>,
                       stack: seq<Word>, results: seq<Word>, r: nat)
    requires OperandsFit(b, m, inputs, outputs, holes) && SignatureOk(SignatureFor(m, inputs, outputs)) && r < |m.regs|
    requires SignatureFor(m, inputs, outputs).inputs == b.inputs
    requires |results| == ResultCount(b) == |Results(b, SignatureFor(m, inputs, outputs))|
    requires |SignatureFor(m, inputs, outputs).operands| == |inputs| + |outputs|
    requires |SignatureFor(m, inputs, outputs).regNames| == |m.regs|
    ensures var s := SignatureFor(m, inputs, outputs);
      var env := EnvBefore(WrapperOf(b, s), m, holes, StackVars(inputs + outputs));
      Lookup(Bind(env, Results(b, s), results), s.regNames[r])
      == if b.kind.Plain? then WriteOutputs(Machine(m.regs, stack), outputs, results).regs[r] else m.regs[r]
  {
    hide UseOf, StackVars, StackCount, Bind, EnvBefore, OperandsFit, SignatureFor, Results, WriteOutputs,
         SignatureOk, Lookup;
    var s := SignatureFor(m, inputs, outputs);
    FitLengths(b, m, inputs, outputs, holes);
    var w := WrapperOf(b, s);
    var env := EnvBefore(w, m, holes, StackVars(inputs + outputs));
    var wrapped := s.operands[|inputs|..];
    SignatureIs(m, inputs, outputs);
    RegisterBefore(b, s, m, holes, StackVars(inputs + outputs), Extraction.Bits(inputs + outputs), r);
    OutputsWrapped(b, m, inputs, outputs, holes);
    UseOfSpec(wrapped, r);
    if b.kind.Plain? {
      RegistersWritten(wrapped, outputs, results, Machine(m.regs, stack), r, |outputs|);
      assert outputs[..|outputs|] == outputs && results[..|outputs|] == results && wrapped[..|outputs|] == wrapped;
    }
    match UseOf(wrapped, r) {
      case Holds(j) =>
        OutputAfter(b, m, inputs, outputs, holes, env, results, j);
        OperandIs(s, |inputs| + j, r);
      case PassThrough(_) => RegisterAfter(b, m, inputs, outputs, holes, env, results, r);
    }
  }

  lemma OperandIs(s: Signature, i: nat, r: nat)
    requires SignatureOk(s) && i < |s.operands| && s.operands[i] == Reg(r)
    ensures r < |s.regNames| && OperandVariable(s, i) == s.regNames[r]
  {
  }

  lemma SignatureIs(m: Machine, inputs: seq<Location>, outputs: seq<Location>)
    ensures |Extraction.Bits(inputs + outputs)| == |inputs| + |outputs|
    ensures SignatureFor(m, inputs, outputs) == SignatureOf(|inputs|, Extraction.Bits(inputs + outputs), |m.regs|)
  {
  }

  lemma OutputsWrapped(b: Body, m: Machine, inputs: seq<Location>, outputs: seq<Location>, holes: seq<Word>)
    requires OperandsFit(b, m, inputs, outputs, holes)
    ensures var operands := SignatureFor(m, inputs, outputs).operands;
      && |operands| == |inputs| + |outputs|
      && forall j :: 0 <= j < |outputs| ==> match operands[|inputs|..][j]
           case Reg(q) => outputs[j] == Register(q)
           case Stk(_) => outputs[j].Stack?
    ensures outputs == [] || b.kind.Plain?
  {
    hide UseOf, StackVars, StackCount, Assignment, SignatureOf;
    forall j | 0 <= j < |outputs|
      ensures match SignatureFor(m, inputs, outputs).operands[|inputs|..][j]
        case Reg(q) => outputs[j] == Register(q)
        case Stk(_) => outputs[j].Stack? {
      OperandWrapped(b, m, inputs, outputs, holes, |inputs| + j);
    }
  }

  /** An output on the stack is in the variable that is stored in its slot. */
  lemma OutputStored(b: Body, m: Machine, inputs: seq<Location>, outputs: seq<Location>, holes: seq<Word>,
                     env: Environment, results: seq<Word>, j: nat)
    requires OperandsFit(b, m, inputs, outputs, holes) && SignatureOk(SignatureFor(m, inputs, outputs)) && b.kind.Plain?
    requires SignatureFor(m, inputs, outputs).inputs == b.inputs && j < |outputs|
    requires |results| == |outputs| == |Results(b, SignatureFor(m, inputs, outputs))|
    requires |SignatureFor(m, inputs, outputs).operands| == |inputs| + |outputs|
    ensures var s := SignatureFor(m, inputs, outputs);
      match s.operands[|inputs| + j]
      case Reg(r) => outputs[j] == Register(r)
      case Stk(k) =>
        outputs[j].Stack? && k < |StackVars(inputs + outputs)|
        && StackVars(inputs + outputs)[k] == outputs[j].slot < |m.stack|
        && Lookup(Bind(env, Results(b, s), results), StackVar(k)) == results[j]
  {
    hide StackVars, Bind, OperandsFit, SignatureFor, Results, Lookup;
    OperandWrapped(b, m, inputs, outputs, holes, |inputs| + j);
    OutputAfter(b, m, inputs, outputs, holes, env, results, j);
  }

  lemma StacksAgree(b: Body, m: Machine, inputs: seq<Location>, outputs: seq<Location>, holes: seq<Word>,
                    env: Environment, stack: seq<Word>, results: seq<Word>)
    requires OperandsFit(b, m, inputs, outputs, holes) && SignatureOk(SignatureFor(m, inputs, outputs))
    requires |stack| == |m.stack|
    requires SignatureFor(m, inputs, outputs).inputs == b.inputs
    requires |results| == ResultCount(b) == |Results(b, SignatureFor(m, inputs, outputs))|
    requires |SignatureFor(m, inputs, outputs).operands| == |inputs| + |outputs|
    ensures var s := SignatureFor(m, inputs, outputs);
      StoreAll(Bind(env, Results(b, s), results), WrapperOf(b, s).stores, StackVars(inputs + outputs), stack)
      == if b.kind.Plain? then WriteOutputs(Machine(m.regs, stack), outputs, results).stack else stack
  {
    hide StackVars, Bind, SignatureFor, WriteOutputs, StoreAll, OperandsFit, Results, Lookup, SignatureOk, Stores;
    FitLengths(b, m, inputs, outputs, holes);
    var s := SignatureFor(m, inputs, outputs);
    var wrapped := s.operands[|inputs|..];
    var env' := Bind(env, Results(b, s), results);
    if b.kind.Plain? {
      forall j | 0 <= j < |outputs|
        ensures match wrapped[j]
          case Reg(r) => outputs[j] == Register(r)
          case Stk(k) =>
            outputs[j].Stack? && k < |StackVars(inputs + outputs)|
            && StackVars(inputs + outputs)[k] == outputs[j].slot < |stack|
            && Lookup(env', StackVar(k)) == results[j] {
        OutputStored(b, m, inputs, outputs, holes, env, results, j);
      }
      StoresWrite(env', wrapped, outputs, results, StackVars(inputs + outputs), Machine(m.regs, stack), |outputs|);
      assert outputs[..|outputs|] == outputs && results[..|outputs|] == results;
    } else {
      NoStores(env', wrapped, StackVars(inputs + outputs), stack);
    }
  }

  lemma ExitAgrees(b: Body, s: Signature, env: Environment, results: seq<Word>)
    requires b.Ok() && SignatureOk(s) && b.inputs == s.inputs && !b.kind.Plain? && |results| == |Results(b, s)|
    ensures LookupAll(Bind(env, Results(b, s), results), Results(b, s)) == results
  {
    hide Bind;
    var vars := Results(b, s);
    forall k | 0 <= k < |vars| ensures Lookup(Bind(env, vars, results), vars[k]) == results[k] {
      BoundTo(env, vars, results, vars[k], results[k]);
    }
  }

  /** For every assignment of locations, running the generated function reads each input from its location,
      calls the body, writes each output to its location, and passes on everything else. */
  lemma WiringRefines(b: Body, f: Behaviour, m: Machine, inputs: seq<Location>, outputs: seq<Location>,
                      holes: seq<Word>)
    requires OperandsFit(b, m, inputs, outputs, holes) && BehaviourOk(f, ResultCount(b))
    ensures SignatureOk(SignatureFor(m, inputs, outputs)) && SignatureFor(m, inputs, outputs).inputs == b.inputs
    ensures var w := WrapperOf(b, SignatureFor(m, inputs, outputs));
      |w.params| == |m.regs|
        && |w.results| == ResultCount(b)
    ensures Run(WrapperOf(b, SignatureFor(m, inputs, outputs)), f, m, holes, StackVars(inputs + outputs))
      == Meaning(b, f, m, inputs, outputs, holes)
  {
    hide UseOf, StackVars, StackCount, Bind, Assignment, SignatureOf, WriteOutputs, StoreAll, Lookup, EnvBefore;
    RunReady(b, m, inputs, outputs, holes);
    FitLengths(b, m, inputs, outputs, holes);
    var (s, slots) := (SignatureFor(m, inputs, outputs), StackVars(inputs + outputs));
    var w := WrapperOf(b, s);
    var env := EnvBefore(w, m, holes, slots);
    SameEnv(w, m, holes, slots);
    var args := seq(|b.args|, n requires 0 <= n < |b.args| => ArgValue(b.args[n], m, inputs, holes));
    assert LookupAll(env, w.callArgs) == args by {
      forall n | 0 <= n < |b.args| ensures LookupAll(env, w.callArgs)[n] == args[n] {
        ArgumentRight(b, m, inputs, outputs, holes, n);
      }
    }
    var effect := f(args, m.stack);
    var env' := Bind(env, w.results, effect.results);
    StacksAgree(b, m, inputs, outputs, holes, env, effect.stack, effect.results);
    forall r | 0 <= r < |m.regs|
      ensures Lookup(env', s.regNames[r]) ==
        if b.kind.Plain? then WriteOutputs(Machine(m.regs, effect.stack), outputs, effect.results).regs[r]
            else m.regs[r] {
      RegistersAgree(b, m, inputs, outputs, holes, effect.stack, effect.results, r);
    }
    if b.kind.Plain? {
      assert LookupAll(env', s.regNames) == WriteOutputs(Machine(m.regs, effect.stack), outputs, effect.results).regs;
    } else {
      assert LookupAll(env', s.regNames) == m.regs;
      ExitAgrees(b, s, env, effect.results);
    }
  }

  lemma SameEnv(w: Wrapper, m: Machine, holes: seq<Word>, slots: seq<nat>)
    requires |w.params| == |m.regs|
    ensures EnvBefore(w, m, holes, slots) == Bind(Bind(map[], w.params, m.regs), InitVars(w.inits),
        InitValues(w.inits, holes, slots, m.stack))
  {
  }

  // ----- the name of the body -----

  /** The variables that are in scope where the wrapper calls the body. */
  function InScope(w: Wrapper): seq<Variable> {
    w.params + InitVars(w.inits) + [Memory]
  }

  /** A variable of the wrapper has the name of the body, so that the call does not reach it. */
  predicate Captured(w: Wrapper, name: string) {
    exists k :: 0 <= k < |InScope(w)| && Identifier(InScope(w)[k]) == name
  }

  /** The variables that occur in some wrapper of a family before the call. */
  predicate Occurs(b: Body, registers: nat, v: Variable) {
    match v
    case Pass(n) => 1 <= n <= registers
    case In(i) => i < b.inputs && registers > 0
    case Out(j) => j < b.outputs && registers > 0
    case InOut(i, j) => i < b.inputs && j < b.outputs && registers > 0
    case StackVar(k) => k < b.inputs
    case HoleVar(k) => k < b.holes
    case TargetName(k, ident) => b.kind.Branching? && k < |b.kind.targets| && ident == b.kind.targets[k]
    case Memory => true
    case _ => false
  }

  ghost predicate Reserved(b: Body, registers: nat, name: string) {
    exists v :: Occurs(b, registers, v) && Identifier(v) == name
  }

  /** The wrapper of an assignment. */
  function WrapperAt(b: Body, registers: nat, digits: seq<nat>): Wrapper
    requires b.Ok() && Assignment(digits, b.inputs, b.outputs, registers + 1)
  {
    var s := SignatureOf(b.inputs, digits, registers);
    assert SignatureOk(s);
    WrapperOf(b, s)
  }

  ghost predicate CapturedSomewhere(b: Body, registers: nat, name: string)
    requires b.Ok()
  {
    exists digits :: Assignment(digits, b.inputs, b.outputs, registers + 1)
      && Captured(WrapperAt(b, registers, digits), name)
  }

  lemma {:induction false} CountBounded(digits: seq<nat>)
    ensures StackCount(digits) <= |digits|
  {
    if digits != [] {
      CountBounded(digits[..|digits| - 1]);
    }
  }

  lemma {:induction false} StackInitsFrom(operands: seq<Wrapped>, n: nat, k: nat) returns (i: nat)
    requires n <= |operands| && k < |StackInits(operands, n)|
    ensures i < n && operands[i].Stk? && StackInits(operands, n)[k]
        == Binding(StackVar(operands[i].index), FromStack(operands[i].index))
  {
    if k < |StackInits(operands, n - 1)| {
      i := StackInitsFrom(operands, n - 1, k);
    } else {
      i := n - 1;
    }
  }

  /** Every variable in scope at the call is one of those. */
  lemma ScopeOccurs(b: Body, registers: nat, digits: seq<nat>, k: nat)
    requires b.Ok() && Assignment(digits, b.inputs, b.outputs, registers + 1)
        && k < |InScope(WrapperAt(b, registers, digits))|
    ensures Occurs(b, registers, InScope(WrapperAt(b, registers, digits))[k])
  {
    hide UseOf, StackCount, StackInits, OutputsDistinct;
    var (s, w) := (SignatureOf(b.inputs, digits, registers), WrapperAt(b, registers, digits));
    if k < registers {
      UseOfSpec(s.operands[..b.inputs], k);
      UseOfSpec(s.operands[b.inputs..], k);
    } else if k < registers + |w.inits| {
      var m := k - registers;
      var h := |HoleInits(b.holes)|;
      var l := |StackInits(s.operands, b.inputs)|;
      assert InScope(w)[k] == w.inits[m].variable;
      if m < h {
        assert w.inits[m] == HoleInits(b.holes)[m];
      } else if m < h + l {
        assert w.inits[m] == StackInits(s.operands, b.inputs)[m - h];
        var i := StackInitsFrom(s.operands, b.inputs, m - h);
        CountBounded(digits[..i]);
      } else {
        assert w.inits[m] == TargetInits(b.kind.targets)[m - h - l];
      }
    }
  }

  /** An assignment in which input `i` and output `j` are in the first register, and everything else is on the stack. */
  function OneRegister(b: Body, i: Option<nat>, j: Option<nat>): (digits: seq<nat>)
    requires i.Some? ==> i.value < b.inputs
    requires j.Some? ==> j.value < b.outputs
    ensures |digits| == b.inputs + b.outputs
    ensures forall k :: 0 <= k < |digits| ==>
      digits[k] == if i == Some(k) || (j.Some? && k == b.inputs + j.value) then 1 else 0
  {
    seq(b.inputs + b.outputs, k requires 0 <= k < b.inputs + b.outputs =>
      if i == Some(k) || (j.Some? && k == b.inputs + j.value) then 1 else 0)
  }

  lemma OneRegisterAssignment(b: Body, registers: nat, i: Option<nat>, j: Option<nat>)
    requires i.Some? ==> i.value < b.inputs && registers > 0
    requires j.Some? ==> j.value < b.outputs && registers > 0
    ensures Assignment(OneRegister(b, i, j), b.inputs, b.outputs, registers + 1)
  {
  }

  lemma OneUse(args: seq<Wrapped>, reg: nat, i: Option<nat>)
    requires i.Some? ==> i.value < |args|
    requires forall k :: 0 <= k < |args| ==> (args[k] == Reg(reg) <==> i == Some(k))
    ensures UseOf(args, reg) == if i.Some? then Holds(i.value) else PassThrough(reg + 1)
  {
    hide UseOf;
    UseOfSpec(args, reg);
    if i.Some? {
      assert args[i.value] == Reg(reg);
    }
  }

  lemma FirstWrapped(b: Body, i: Option<nat>, j: Option<nat>, k: nat)
    requires (i.Some? ==> i.value < b.inputs) && (j.Some? ==> j.value < b.outputs) && k < b.inputs + b.outputs
    ensures WrappedAt(OneRegister(b, i, j), k) == Reg(0)
      <==> i == Some(k) || (j.Some? && k == b.inputs + j.value)
  {
    hide StackCount;
  }

  /** What the first register is for in that assignment. */
  lemma FirstRegister(b: Body, registers: nat, i: Option<nat>, j: Option<nat>)
    requires registers > 0 && (i.Some? ==> i.value < b.inputs) && (j.Some? ==> j.value < b.outputs)
    ensures var s := SignatureOf(b.inputs, OneRegister(b, i, j), registers);
      s.regNames[0] == RegisterVariable(if i.Some? then Holds(i.value) else PassThrough(1),
                                        if j.Some? then Holds(j.value) else PassThrough(1))
  {
    hide UseOf, StackCount, RegisterVariable, WrappedAt, OneRegister;
    var digits := OneRegister(b, i, j);
    var s := SignatureOf(b.inputs, digits, registers);
    var (ins, outs) := (s.operands[..b.inputs], s.operands[b.inputs..]);
    forall k: nat | k < |ins| ensures ins[k] == Reg(0) <==> i == Some(k) {
      FirstWrapped(b, i, j, k);
    }
    forall k: nat | k < |outs| ensures outs[k] == Reg(0) <==> j == Some(k) {
      FirstWrapped(b, i, j, b.inputs + k);
    }
    OneUse(ins, 0, i);
    OneUse(outs, 0, j);
  }

  lemma {:induction false} CountZeros(n: nat)
    ensures StackCount(Zeros(n)) == n
  {
    if n > 0 {
      CountZeros(n - 1);
      assert Zeros(n)[..n - 1] == Zeros(n - 1);
    }
  }

  /** A binding of a wrapper puts its variable in scope. */
  lemma BindingInScope(w: Wrapper, b: Binding)
    requires b in w.inits
    ensures b.variable in InScope(w)
  {
    var m :| 0 <= m < |w.inits| && w.inits[m] == b;
    assert InScope(w)[|w.params| + m] == b.variable;
  }

  /** With everything on the stack, all registers are passed through. */
  lemma PassOnStack(b: Body, registers: nat, n: nat)
    requires 1 <= n <= registers
    ensures SignatureOf(b.inputs, OneRegister(b, None, None), registers).regNames[n - 1] == Pass(n)
  {
    hide UseOf, StackCount;
    var digits := OneRegister(b, None, None);
    var s := SignatureOf(b.inputs, digits, registers);
    var (ins, outs) := (s.operands[..b.inputs], s.operands[b.inputs..]);
    forall k | 0 <= k < |ins| ensures ins[k].Stk? {
      assert ins[k] == WrappedAt(digits, k);
    }
    forall k | 0 <= k < |outs| ensures outs[k].Stk? {
      assert outs[k] == WrappedAt(digits, b.inputs + k);
    }
    OneUse(ins, n - 1, None);
    OneUse(outs, n - 1, None);
  }

  /** And the inputs are numbered from zero. */
  lemma StackOnStack(b: Body, registers: nat, k: nat)
    requires k < b.inputs
    ensures SignatureOf(b.inputs, OneRegister(b, None, None), registers).operands[k] == Stk(k)
  {
    hide UseOf, StackCount;
    var digits := OneRegister(b, None, None);
    assert digits[..k] == Zeros(k);
    CountZeros(k);
    assert SignatureOf(b.inputs, digits, registers).operands[k] == WrappedAt(digits, k);
  }

  lemma AllOnStack(b: Body, registers: nat, v: Variable)
    requires b.Ok() && Occurs(b, registers, v) && !v.In? && !v.Out? && !v.InOut?
    requires Assignment(OneRegister(b, None, None), b.inputs, b.outputs, registers + 1)
    ensures v in InScope(WrapperAt(b, registers, OneRegister(b, None, None)))
  {
    hide UseOf, StackInits, OutputsDistinct, OneRegister, Assignment, WrapperOf, InScope;
    var digits := OneRegister(b, None, None);
    var s := SignatureOf(b.inputs, digits, registers);
    var w := WrapperAt(b, registers, digits);
    SignatureReady(b, registers, digits);
    InitsFit(b, s);
    match v {
      case Pass(n) =>
        PassOnStack(b, registers, n);
        ParamInScope(b, registers, digits, n - 1);
      case StackVar(k) =>
        StackOnStack(b, registers, k);
        BindingInScope(w, Binding(v, FromStack(k)));
      case HoleVar(k) => BindingInScope(w, Binding(v, FromHole(k)));
      case TargetName(k, _) => BindingInScope(w, Binding(v, FromTarget(k)));
      case Memory => MemoryInScope(w);
    }
  }

  lemma SignatureReady(b: Body, registers: nat, digits: seq<nat>)
    requires b.Ok() && Assignment(digits, b.inputs, b.outputs, registers + 1)
    ensures b.inputs <= |digits| && SignatureOk(SignatureOf(b.inputs, digits, registers))
    ensures WrapperAt(b, registers, digits) == WrapperOf(b, SignatureOf(b.inputs, digits, registers))
  {
    hide WrapperOf, UseOf, StackCount, OutputsDistinct;
  }

  lemma MemoryInScope(w: Wrapper)
    ensures Memory in InScope(w)
  {
    assert InScope(w)[|InScope(w)| - 1] == Memory;
  }

  lemma ParamInScope(b: Body, registers: nat, digits: seq<nat>, r: nat)
    requires b.Ok() && Assignment(digits, b.inputs, b.outputs, registers + 1) && r < registers
    ensures b.inputs <= |digits|
    ensures SignatureOf(b.inputs, digits, registers).regNames[r] in InScope(WrapperAt(b, registers, digits))
  {
    hide UseOf, StackInits, StackCount, OutputsDistinct;
    var (s, w) := (SignatureOf(b.inputs, digits, registers), WrapperAt(b, registers, digits));
    assert InScope(w)[r] == s.regNames[r];
  }

  /** The body can be called from all wrappers of its family, exactly if its name is none of theirs. */
  lemma CalleeReached(b: Body, registers: nat, name: string)
    requires b.Ok()
    ensures CapturedSomewhere(b, registers, name) <==> Reserved(b, registers, name)
  {
    hide Identifier, InScope, WrapperAt, Assignment, Occurs, OneRegister;
    if CapturedSomewhere(b, registers, name) {
      var digits :| Assignment(digits, b.inputs, b.outputs, registers + 1)
          && Captured(WrapperAt(b, registers, digits), name);
      var k :| 0 <= k < |InScope(WrapperAt(b, registers, digits))|
          && Identifier(InScope(WrapperAt(b, registers, digits))[k]) == name;
      ScopeOccurs(b, registers, digits, k);
    }
    if Reserved(b, registers, name) {
      var v :| Occurs(b, registers, v) && Identifier(v) == name;
      var digits := OccursSomewhere(b, registers, v);
      var scope := InScope(WrapperAt(b, registers, digits));
      var k :| 0 <= k < |scope| && scope[k] == v;
      assert Captured(WrapperAt(b, registers, digits), name);
    }
  }

  lemma OccursSomewhere(b: Body, registers: nat, v: Variable) returns (digits: seq<nat>)
    requires b.Ok() && Occurs(b, registers, v)
    ensures Assignment(digits, b.inputs, b.outputs, registers + 1) && v in InScope(WrapperAt(b, registers, digits))
  {
    hide UseOf, StackInits, StackCount, Assignment, OneRegister, InScope, WrapperAt;
    var i := if v.In? || v.InOut? then Some(v.i) else None;
    var j := if v.Out? || v.InOut? then Some(v.j) else None;
    digits := OneRegister(b, i, j);
    OneRegisterAssignment(b, registers, i, j);
    if i == None && j == None {
      AllOnStack(b, registers, v);
    } else {
      FirstRegister(b, registers, i, j);
      ParamInScope(b, registers, digits, 0);
    }
  }

  /** The stack parameter captures a body of its name in every family; the variables that the call itself binds do not,
      because they are not in scope before it. */
  lemma StackIsReserved(b: Body, registers: nat)
    ensures Reserved(b, registers, "stack") && !Reserved(b, registers, "target") && !Reserved(b, registers, "__next")
  {
    assert Occurs(b, registers, Memory) && Identifier(Memory) == "stack";
    forall v | Occurs(b, registers, v) ensures Identifier(v) != "target" && Identifier(v) != "__next" {
      assert Identifier(Chosen) == "target" && Identifier(NextAddress) == "__next";
      if Identifier(v) == Identifier(Chosen) {
        IdentifiersDiffer(v, Chosen);
      }
      if Identifier(v) == Identifier(NextAddress) {
        IdentifiersDiffer(v, NextAddress);
      }
    }
  }
}
