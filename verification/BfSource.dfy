/** The meaning of brainf**k source text: a bracket-matching machine over characters.

    This is the reference every other brainf**k module is measured against.  It
    knows nothing about trees, run lengths, stencils or blocks. */
module BfSource {
  import opened Words

  /** The tape has a cell, which is a byte, at every integer: cells outside `[0, len)` are the padding
      that compiled code may touch between two bounds checks. */
  type Tape = t: map<int, Byte> | forall i: int :: i in t ==> t[i] != 0

  datatype State = State(tape: Tape, ptr: int, input: seq<Byte>, output: seq<Byte>)

  function CellAt(s: State, i: int): Byte {
    if i in s.tape then s.tape[i] else 0
  }

  function Cell(s: State): Byte {
    CellAt(s, s.ptr)
  }

  /** Stores the value `v` modulo 256 in cell `i`. */
  function Store(s: State, i: int, v: int): State {
    s.(tape := if v % 256 == 0 then s.tape - {i} else s.tape[i := v % 256])
  }

  function Move(s: State, n: int): State {
    s.(ptr := s.ptr + n)
  }

  /** Reads one byte of input; the end of the input reads as zero. */
  function ReadByte(s: State): State {
    if s.input == [] then Store(s, s.ptr, 0)
    else Store(s, s.ptr, s.input[0]).(input := s.input[1..])
  }

  function PrintByte(s: State): State {
    s.(output := s.output + [Cell(s)])
  }

  predicate InTape(len: nat, s: State) {
    0 <= s.ptr < len
  }

  // ----- the text that a source file stands for -----

  predicate IsBracket(c: char) {
    c == '[' || c == ']'
  }

  /** `n` closing brackets. */
  function Closers(n: nat): (r: string)
    ensures |r| == n
    ensures forall i :: 0 <= i < n ==> r[i] == ']'
  {
    seq(n, _ => ']')
  }

  /** The balanced text that `code` stands for inside `depth` open loops: a stray
      closing bracket ends the program, and loops still open at the end of the
      text are closed there. */
  function Effective(code: string, depth: nat): string {
    if code == "" then Closers(depth)
    else if code[0] == '[' then "[" + Effective(code[1..], depth + 1)
    else if code[0] == ']' then
      if depth == 0 then "" else "]" + Effective(code[1..], depth - 1)
    else [code[0]] + Effective(code[1..], depth)
  }

  // ----- bracket matching -----

  /** The first position at or after `i` whose `]` closes a loop that has `depth` further
      loops open inside it; `|text|` if there is none. */
  function FindClose(text: string, i: nat, depth: nat): (r: nat)
    requires i <= |text|
    ensures i <= r <= |text|
    decreases |text| - i
  {
    if i == |text| then i
    else if text[i] == ']' then if depth == 0 then i else FindClose(text, i + 1, depth - 1)
    else if text[i] == '[' then FindClose(text, i + 1, depth + 1)
    else FindClose(text, i + 1, depth)
  }

  /** Scanning left from just before `i`, the position of the `[` that opens the loop
      `depth` levels out; `|text|` if there is none. */
  function FindOpen(text: string, i: nat, depth: nat): (r: nat)
    requires i <= |text|
    ensures r < i || r == |text|
  {
    if i == 0 then |text|
    else if text[i - 1] == '[' then if depth == 0 then i - 1 else FindOpen(text, i - 1, depth - 1)
    else if text[i - 1] == ']' then FindOpen(text, i - 1, depth + 1)
    else FindOpen(text, i - 1, depth)
  }

  // ----- the machine -----

  datatype Config = Config(pc: nat, s: State)

  predicate Halted(text: string, c: Config) {
    c.pc >= |text|
  }

  function Command(c: char, s: State): State {
    match c
    case '+' => Store(s, s.ptr, Cell(s) + 1)
    case '-' => Store(s, s.ptr, Cell(s) - 1)
    case '<' => Move(s, -1)
    case '>' => Move(s, 1)
    case '.' => PrintByte(s)
    case ',' => ReadByte(s)
    case _ => s
  }

  /** One step.  `[` skips past the matching `]` on a zero cell; `]` goes back to
      the matching `[` on a nonzero cell. */
  function Step(text: string, c: Config): Config {
    if Halted(text, c) then c
    else if text[c.pc] == '[' then
      Config(if Cell(c.s) == 0 then FindClose(text, c.pc + 1, 0) + 1 else c.pc + 1, c.s)
    else if text[c.pc] == ']' then
      Config(if Cell(c.s) == 0 then c.pc + 1 else FindOpen(text, c.pc, 0), c.s)
    else Config(c.pc + 1, Command(text[c.pc], c.s))
  }

  function Run(text: string, c: Config, n: nat): Config
    decreases n
  {
    if n == 0 then c else Run(text, Step(text, c), n - 1)
  }

  /** The run of a source file from the state `s`, after `n` steps. */
  function SourceAt(code: string, s: State, n: nat): Config {
    Run(Effective(code, 0), Config(0, s), n)
  }

  /** The run of `code` from `s` ends, in state `t`. */
  ghost predicate Terminates(code: string, s: State, t: State) {
    exists n: nat :: Halted(Effective(code, 0), SourceAt(code, s, n)) && SourceAt(code, s, n).s == t
  }

  /** At some step of the run of `code` from `s`, the pointer is outside the tape. */
  ghost predicate Leaves(code: string, len: nat, s: State) {
    exists n: nat :: !InTape(len, SourceAt(code, s, n).s)
  }

  lemma StoreCell(s: State, i: int, v: int, j: int)
    ensures CellAt(Store(s, i, v), j) == if i == j then v % 256 else CellAt(s, j)
  {
  }

  lemma StoreKeeps(s: State, i: int, v: int)
    ensures Store(s, i, v).ptr == s.ptr
  {
  }

  lemma StoreTwice(s: State, i: int, v: int, w: int)
    ensures Store(Store(s, i, v), i, w) == Store(s, i, w)
  {
    assert Store(Store(s, i, v), i, w).tape == Store(s, i, w).tape;
  }

  lemma StoreSwap(s: State, i: int, v: int, j: int, w: int)
    requires i != j
    ensures Store(Store(s, i, v), j, w) == Store(Store(s, j, w), i, v)
  {
    assert Store(Store(s, i, v), j, w).tape == Store(Store(s, j, w), i, v).tape;
  }

  lemma StoreSame(s: State, i: int)
    ensures Store(s, i, CellAt(s, i)) == s
  {
    assert Store(s, i, CellAt(s, i)).tape == s.tape;
  }

  // ----- paths -----

  ghost predicate ReachesIn(text: string, a: nat, s: State, b: nat, t: State, n: nat) {
    Run(text, Config(a, s), n) == Config(b, t)
  }

  ghost predicate Reaches(text: string, a: nat, s: State, b: nat, t: State) {
    exists n: nat :: ReachesIn(text, a, s, b, t, n)
  }

  /** Like `Reaches`, with at least one step before the end of the text. */
  ghost predicate Advances(text: string, a: nat, s: State, b: nat, t: State) {
    a < |text| && exists n: nat :: n > 0 && ReachesIn(text, a, s, b, t, n)
  }

  lemma {:induction false} RunSplit(text: string, c: Config, m: nat, n: nat)
    ensures Run(text, c, m + n) == Run(text, Run(text, c, m), n)
    decreases m
  {
    if m > 0 {
      RunSplit(text, Step(text, c), m - 1, n);
    }
  }

  lemma ReachesTrans(text: string, a: nat, s: State, b: nat, t: State, c: nat, u: State)
    requires Reaches(text, a, s, b, t) && Reaches(text, b, t, c, u)
    ensures Reaches(text, a, s, c, u)
    ensures Advances(text, a, s, b, t) || Advances(text, b, t, c, u) ==> Advances(text, a, s, c, u)
  {
    var m: nat :| ReachesIn(text, a, s, b, t, m);
    var n: nat :| ReachesIn(text, b, t, c, u, n);
    RunSplit(text, Config(a, s), m, n);
    assert ReachesIn(text, a, s, c, u, m + n);
    if Advances(text, a, s, b, t) {
      var k: nat :| k > 0 && ReachesIn(text, a, s, b, t, k);
      RunSplit(text, Config(a, s), k, n);
      assert ReachesIn(text, a, s, c, u, k + n);
    } else if Advances(text, b, t, c, u) {
      if a >= |text| {
        HaltedStays(text, Config(a, s), m);
      }
      var k: nat :| k > 0 && ReachesIn(text, b, t, c, u, k);
      RunSplit(text, Config(a, s), m, k);
      assert ReachesIn(text, a, s, c, u, m + k);
    }
  }

  lemma AdvancesStep(text: string, a: nat, s: State)
    requires a < |text|
    ensures var d := Step(text, Config(a, s)); Advances(text, a, s, d.pc, d.s)
  {
    var d := Step(text, Config(a, s));
    assert Run(text, Config(a, s), 1) == Run(text, d, 0);
    assert ReachesIn(text, a, s, d.pc, d.s, 1);
  }

  lemma AdvancesReaches(text: string, a: nat, s: State, b: nat, t: State)
    requires Advances(text, a, s, b, t)
    ensures Reaches(text, a, s, b, t)
  {
    var k: nat :| k > 0 && ReachesIn(text, a, s, b, t, k);
  }

  lemma ReachesSelf(text: string, a: nat, s: State)
    ensures Reaches(text, a, s, a, s)
  {
    assert ReachesIn(text, a, s, a, s, 0);
  }

  lemma {:induction false} HaltedStays(text: string, c: Config, n: nat)
    requires Halted(text, c)
    ensures Run(text, c, n) == c
    decreases n
  {
    if n > 0 {
      HaltedStays(text, c, n - 1);
    }
  }

  /** A run ends in at most one state. */
  lemma TerminatesOnce(code: string, s: State, t: State, u: State)
    requires Terminates(code, s, t) && Terminates(code, s, u)
    ensures t == u
  {
    var text := Effective(code, 0);
    var m: nat :| Halted(text, SourceAt(code, s, m)) && SourceAt(code, s, m).s == t;
    var n: nat :| Halted(text, SourceAt(code, s, n)) && SourceAt(code, s, n).s == u;
    if m <= n {
      RunSplit(text, Config(0, s), m, n - m);
      HaltedStays(text, SourceAt(code, s, m), n - m);
    } else {
      RunSplit(text, Config(0, s), n, m - n);
      HaltedStays(text, SourceAt(code, s, n), m - n);
    }
  }

  // ----- balanced stretches of text -----

  /** Both searches for a matching bracket pass over `text[a..b]` with their depth unchanged. */
  ghost predicate Balanced(text: string, a: nat, b: nat)
    requires a <= b <= |text|
  {
    && (forall depth: nat :: FindClose(text, a, depth) == FindClose(text, b, depth))
    && (forall depth: nat :: FindOpen(text, b, depth) == FindOpen(text, a, depth))
  }

  lemma BalancedEmpty(text: string, a: nat)
    requires a <= |text|
    ensures Balanced(text, a, a)
  {
  }

  lemma BalancedPlain(text: string, a: nat)
    requires a < |text| && !IsBracket(text[a])
    ensures Balanced(text, a, a + 1)
  {
  }

  lemma BalancedTrans(text: string, a: nat, b: nat, c: nat)
    requires a <= b <= c <= |text| && Balanced(text, a, b) && Balanced(text, b, c)
    ensures Balanced(text, a, c)
  {
  }

  /** A balanced stretch between two brackets: they match each other, and the whole is balanced. */
  lemma BalancedLoop(text: string, a: nat, b: nat)
    requires a < b < |text| && text[a] == '[' && text[b] == ']' && Balanced(text, a + 1, b)
    ensures FindClose(text, a + 1, 0) == b && FindOpen(text, b, 0) == a
    ensures Balanced(text, a, b + 1)
  {
    forall depth: nat
      ensures FindClose(text, a, depth) == FindClose(text, b + 1, depth)
      ensures FindOpen(text, b + 1, depth) == FindOpen(text, a, depth)
    {
      assert FindClose(text, a, depth) == FindClose(text, a + 1, depth + 1);
      assert FindOpen(text, b + 1, depth) == FindOpen(text, b, depth + 1);
    }
  }
}
