/** Correctness of the brainf**k compiler, from source text to compiled blocks. */
module BfCorrectness {
  import opened BfSource
  import opened Words
  import opened BfParser
  import opened BfTarget
  import opened BfCodegen
  import opened BfSimulation
  import opened BfNotes

  /** The code of a source file. */
  function Compiled(source: string, host: Host): Graph {
    Generated(Parsed(source), host)
  }

  /** Zero means that the source run ends, in the same state: tape, pointer, input and output; and that the pointer is
      on the tape then. */
  lemma ZeroMeansDone(source: string, host: Host, len: nat, s: State, t: State)
    requires s.ptr == 0 && len > 0
    requires Returns(Compiled(source, host), host, len, s, 0, t)
    ensures Terminates(source, s, t) && InTape(len, t)
  {
    hide Program;
    var notes := GeneratedProgram(source, host);
    var n: nat :| TargetAt(Compiled(source, host), host, len, s, n) == Returned(0, t);
    var text := Effective(source, 0);
    RunMatches(text, host, len, Compiled(source, host), notes, s, n);
    var m: nat :| ReachesIn(text, 0, s, |text|, t, m);
    assert SourceAt(source, s, m) == Config(|text|, t);
  }

  /** Every other value is -1, and means that the source pointer has left the tape. */
  lemma PanicMeansAstray(source: string, host: Host, len: nat, s: State, value: nat, t: State)
    requires s.ptr == 0 && len > 0
    requires Returns(Compiled(source, host), host, len, s, value, t) && value != 0
    ensures value == Wrap(-1) && Leaves(source, len, s)
  {
    hide Program;
    var notes := GeneratedProgram(source, host);
    var n: nat :| TargetAt(Compiled(source, host), host, len, s, n) == Returned(value, t);
    var text := Effective(source, 0);
    RunMatches(text, host, len, Compiled(source, host), notes, s, n);
    var pos: nat :| Reaches(text, 0, s, pos, t);
    var m: nat :| ReachesIn(text, 0, s, pos, t, m);
    assert !InTape(len, SourceAt(source, s, m).s);
  }

  /** The machine never gets stuck, and never touches a cell 2048 or more away from the tape. */
  lemma AccessesStayNear(source: string, host: Host, len: nat, s: State, n: nat)
    requires s.ptr == 0 && len > 0
    ensures var graph := Compiled(source, host);
      var t := TargetAt(graph, host, len, s, n);
      !t.Stuck? &&
      (t.Running? ==>
        && HasCode(graph, t.block, t.index) && OperandsOk(graph[t.block][t.index], host)
        && forall x :: x in Touches(graph[t.block][t.index], host, len, t.s) ==> -2048 < x < len + 2048)
  {
    var notes := GeneratedProgram(source, host);
    var graph, text := Compiled(source, host), Effective(source, 0);
    RunMatches(text, host, len, graph, notes, s, n);
    var t := TargetAt(graph, host, len, s, n);
    if t.Running? {
      var e := graph[t.block][t.index];
      assert Justified(text, host, graph, notes, t.block, t.index, e);
      forall x | x in Touches(e, host, len, t.s) ensures -2048 < x < len + 2048 {
        TouchesNearTape(text, host, len, graph, notes, s, t, x);
      }
    }
  }

  // ----- termination -----

  /** How many stencils can run before the source has to take a step. */
  function Rank(graph: Graph, b: nat, i: nat): nat {
    if HasCode(graph, b, i) && graph[b][i].stencil in {CHECK, JMP} then |graph[b]| - i else 0
  }

  /** Step `m` is not after step `end`, if the source run has ended by then. */
  ghost predicate Bounded(source: string, s: State, end: nat, m: nat) {
    Halted(Effective(source, 0), SourceAt(source, s, end)) ==> m <= end
  }

  /** The run goes on for `k` steps, or to its end. */
  lemma GoOn(source: string, s: State, end: nat, m: nat, k: nat) returns (m': nat)
    requires Bounded(source, s, end, m)
    ensures Bounded(source, s, end, m') && m <= m'
    ensures SourceAt(source, s, m') == Run(Effective(source, 0), SourceAt(source, s, m), k)
  {
    hide Effective;
    var (text, c) := (Effective(source, 0), Config(0, s));
    RunSplit(text, c, m, k);
    m' := m + k;
    if Halted(text, Run(text, c, end)) && m + k > end {
      RunSplit(text, c, end, m + k - end);
      HaltedStays(text, Run(text, c, end), m + k - end);
      m' := end;
    }
  }

  /** The compiled code is where the source is at step `m`. */
  ghost predicate InStep(source: string, graph: Graph, notes: Notes, s: State, end: nat, t: Target, m: nat) {
    && t.Running? && (t.block, t.index) in notes && notes[(t.block, t.index)].At? && Bounded(source, s, end, m)
    && SourceAt(source, s, m) == Config(notes[(t.block, t.index)].pos, t.s)
  }

  /** After a step the code has returned, is about to panic, or is still in step with the source,
      which has taken a step itself or will, a bounded number of stencils later. */
  ghost predicate Stepped(source: string, graph: Graph, notes: Notes, s: State, end: nat, t: Target, m: nat,
                          t': Target, m': nat)
    requires t.Running?
  {
    || t'.Returned?
    || (t'.Running? && (t'.block, t'.index) in notes && notes[(t'.block, t'.index)].Panic?)
    || (InStep(source, graph, notes, s, end, t', m') && m <= m'
        && (m < m' || Rank(graph, t'.block, t'.index) < Rank(graph, t.block, t.index)))
  }

  lemma DataStepping(source: string, host: Host, len: nat, graph: Graph, notes: Notes, s: State, end: nat, t: Target,
                     m: nat, e: Ins)
    returns (m': nat)
    requires InStep(source, graph, notes, s, end, t, m)
    requires Justified(Effective(source, 0), host, graph, notes, t.block, t.index, e) && IsData(e.stencil)
    ensures Stepped(source, graph, notes, s, end, t, m, Execute(e, host, len, t.block, t.index, t.s), m')
  {
    hide Effective, SourceAt, Advances, DataEffect, Halted;
    var (b, i, u) := (t.block, t.index, t.s);
    var u' := DataEffect(e, host, u);
    assert Advances(Effective(source, 0), notes[(b, i)].pos, u, notes[(b, i + 1)].pos, u');
    m' := Moving(source, s, end, m, notes[(b, i)].pos, u, notes[(b, i + 1)].pos, u');
  }

  lemma LoopStepping(source: string, host: Host, len: nat, graph: Graph, notes: Notes, s: State, end: nat, t: Target,
                     m: nat, e: Ins)
    returns (m': nat)
    requires InStep(source, graph, notes, s, end, t, m)
    requires Justified(Effective(source, 0), host, graph, notes, t.block, t.index, e) && e.stencil == IF_ZERO
    ensures Stepped(source, graph, notes, s, end, t, m, Execute(e, host, len, t.block, t.index, t.s), m')
  {
    hide Effective, SourceAt, Advances, Halted;
    var (b, i, u) := (t.block, t.index, t.s);
    var pos := notes[(b, i)].pos;
    m' := m;
    if InTape(len, u) {
      var jump := e.jumps[if Cell(u) == 0 then 0 else 1];
      assert GoesTo(Effective(source, 0), pos, notes, b, i, jump, Cell(u) == 0);
      var (c, j) := match jump case NextStencil => (b, i + 1) case Target(t) => (t, 0);
      m' := Moving(source, s, end, m, pos, u, notes[(c, j)].pos, u);
    }
  }

  lemma ControlStepping(source: string, host: Host, len: nat, graph: Graph, notes: Notes, s: State, end: nat,
                        t: Target, m: nat, e: Ins)
    returns (m': nat)
    requires InStep(source, graph, notes, s, end, t, m)
    requires Justified(Effective(source, 0), host, graph, notes, t.block, t.index, e) && e.stencil in {RET, CHECK, JMP}
    requires HasCode(graph, t.block, t.index) && graph[t.block][t.index] == e
    ensures Stepped(source, graph, notes, s, end, t, m, Execute(e, host, len, t.block, t.index, t.s), m')
  {
    hide Effective, Halted, GoesTo, SameEffect;
    m' := m;
    if e.stencil == JMP {
      var pos, pos' := notes[(t.block, t.index)].pos, notes[(e.jumps[0].block, 0)].pos;
      assert Reaches(Effective(source, 0), pos, t.s, pos', t.s);
      var k: nat :| ReachesIn(Effective(source, 0), pos, t.s, pos', t.s, k);
      m' := GoOn(source, s, end, m, k);
    }
  }

  lemma Stepping(source: string, host: Host, len: nat, graph: Graph, notes: Notes, s: State, end: nat, t: Target,
                 m: nat)
    returns (m': nat)
    requires Program(Effective(source, 0), host, graph, notes)
    requires InStep(source, graph, notes, s, end, t, m)
    ensures Stepped(source, graph, notes, s, end, t, m, TargetStep(graph, host, len, t), m')
  {
    hide Justified, Effective, SourceAt, Halted, Execute, Stepped;
    var e := graph[t.block][t.index];
    assert Justified(Effective(source, 0), host, graph, notes, t.block, t.index, e);
    if e.stencil == IF_ZERO {
      m' := LoopStepping(source, host, len, graph, notes, s, end, t, m, e);
    } else if IsData(e.stencil) {
      m' := DataStepping(source, host, len, graph, notes, s, end, t, m, e);
    } else {
      m' := ControlStepping(source, host, len, graph, notes, s, end, t, m, e);
    }
  }

  lemma Moving(source: string, s: State, end: nat, m: nat, a: nat, u: State, b: nat, v: State) returns (m': nat)
    requires Bounded(source, s, end, m)
    requires SourceAt(source, s, m) == Config(a, u) && Advances(Effective(source, 0), a, u, b, v)
    ensures m < m' && Bounded(source, s, end, m') && SourceAt(source, s, m') == Config(b, v)
  {
    hide Effective, SourceAt, Bounded;
    var text := Effective(source, 0);
    var k: nat :| k > 0 && ReachesIn(text, a, u, b, v, k);
    m' := NextStep(source, s, end, m);
    assert Run(text, SourceAt(source, s, m), k) == Run(text, Step(text, SourceAt(source, s, m)), k - 1);
    m' := GoOn(source, s, end, m', k - 1);
  }

  lemma NextStep(source: string, s: State, end: nat, m: nat) returns (m': nat)
    requires Bounded(source, s, end, m) && !Halted(Effective(source, 0), SourceAt(source, s, m))
    ensures m < m' && Bounded(source, s, end, m')
    ensures SourceAt(source, s, m') == Step(Effective(source, 0), SourceAt(source, s, m))
  {
    hide Effective;
    var (text, c) := (Effective(source, 0), Config(0, s));
    m' := m + 1;
    RunSplit(text, c, m, 1);
    assert Run(text, Run(text, c, m), 1) == Run(text, Step(text, Run(text, c, m)), 0);
  }

  lemma {:induction false} Finishing(source: string, host: Host, len: nat, notes: Notes, s: State, end: nat, n: nat,
                                     m: nat)
    returns (n': nat)
    requires var graph := Compiled(source, host);
      && Program(Effective(source, 0), host, graph, notes)
      && Halted(Effective(source, 0), SourceAt(source, s, end))
      && InStep(source, graph, notes, s, end, TargetAt(graph, host, len, s, n), m)
    ensures TargetAt(Compiled(source, host), host, len, s, n').Returned?
    decreases end - m, var t := TargetAt(Compiled(source, host), host, len, s, n);
                       if t.Running? then Rank(Compiled(source, host), t.block, t.index) else 0
  {
    hide Compiled, Justified;
    var graph := Compiled(source, host);
    var t := TargetAt(graph, host, len, s, n);
    var t' := TargetAt(graph, host, len, s, n + 1);
    var m' := Stepping(source, host, len, graph, notes, s, end, t, m);
    if t'.Returned? {
      n' := n + 1;
    } else if notes[(t'.block, t'.index)].Panic? {
      n' := n + 2;
      PanicReturns(Effective(source, 0), host, len, graph, notes, t');
    } else {
      n' := Finishing(source, host, len, notes, s, end, n + 1, m');
    }
  }

  lemma PanicReturns(text: string, host: Host, len: nat, graph: Graph, notes: Notes, t: Target)
    requires Program(text, host, graph, notes) && t.Running? && (t.block, t.index) in notes
    requires notes[(t.block, t.index)].Panic?
    ensures TargetStep(graph, host, len, t).Returned?
  {
    assert Justified(text, host, graph, notes, t.block, t.index, graph[t.block][t.index]);
  }

  /** When the source run ends, so does the run of the compiled code. */
  lemma DoneMeansReturned(source: string, host: Host, len: nat, s: State, u: State) returns (value: nat, t: State)
    requires s.ptr == 0 && len > 0 && Terminates(source, s, u)
    ensures Returns(Compiled(source, host), host, len, s, value, t)
  {
    hide Compiled;
    var notes := GeneratedProgram(source, host);
    var graph, text := Compiled(source, host), Effective(source, 0);
    assert Program(text, host, graph, notes) by {
      assert Compiled(source, host) == graph;
      CompiledIs(source, host);
    }
    var end: nat :| Halted(text, SourceAt(source, s, end)) && SourceAt(source, s, end).s == u;
    assert SourceAt(source, s, 0) == Config(0, s);
    var n := Finishing(source, host, len, notes, s, end, 0, 0);
    var r := TargetAt(graph, host, len, s, n);
    value, t := r.value, r.s;
    assert TargetAt(graph, host, len, s, n) == Returned(value, t);
  }

  lemma CompiledIs(source: string, host: Host)
    ensures Compiled(source, host) == Generated(Parsed(source), host)
  {
  }

  /** A source run that ends without leaving the tape gives zero and the same state. */
  lemma DoneInsideMeansZero(source: string, host: Host, len: nat, s: State, u: State)
    requires s.ptr == 0 && len > 0 && Terminates(source, s, u) && !Leaves(source, len, s)
    ensures Returns(Compiled(source, host), host, len, s, 0, u)
  {
    hide Compiled;
    var value, t := DoneMeansReturned(source, host, len, s, u);
    if value != 0 {
      PanicMeansAstray(source, host, len, s, value, t);
    }
    ZeroMeansDone(source, host, len, s, t);
    TerminatesOnce(source, s, t, u);
  }

  /** A source run that ends off the tape gives -1. */
  lemma DoneOutsideMeansPanic(source: string, host: Host, len: nat, s: State, u: State) returns (t: State)
    requires s.ptr == 0 && len > 0 && Terminates(source, s, u) && !InTape(len, u)
    ensures Returns(Compiled(source, host), host, len, s, Wrap(-1), t)
  {
    hide Compiled;
    var value;
    value, t := DoneMeansReturned(source, host, len, s, u);
    if value == 0 {
      ZeroMeansDone(source, host, len, s, t);
      TerminatesOnce(source, s, t, u);
    } else {
      PanicMeansAstray(source, host, len, s, value, t);
    }
  }

  /** For source runs that stay on the tape, the compiled code and the source agree exactly. */
  lemma CompilerCorrect(source: string, host: Host, len: nat, s: State, t: State)
    requires s.ptr == 0 && len > 0 && !Leaves(source, len, s)
    ensures Returns(Compiled(source, host), host, len, s, 0, t) <==> Terminates(source, s, t)
    ensures forall value: nat, u: State :: Returns(Compiled(source, host), host, len, s, value, u) ==> value == 0
  {
    hide Compiled;
    if Returns(Compiled(source, host), host, len, s, 0, t) {
      ZeroMeansDone(source, host, len, s, t);
    }
    if Terminates(source, s, t) {
      DoneInsideMeansZero(source, host, len, s, t);
    }
    forall value: nat, u: State | Returns(Compiled(source, host), host, len, s, value, u) ensures value == 0 {
      if value != 0 {
        PanicMeansAstray(source, host, len, s, value, u);
      }
    }
  }

  // ----- runs that do not end -----

  /** The source run that starts in `s` goes on for ever. */
  ghost predicate Diverges(source: string, s: State) {
    forall n: nat :: !Halted(Effective(source, 0), SourceAt(source, s, n))
  }

  lemma DivergesOrNot(source: string, s: State)
    ensures !Diverges(source, s) <==> exists u :: Terminates(source, s, u)
  {
    hide Effective, SourceAt, Halted;
    if !Diverges(source, s) {
      var n: nat :| Halted(Effective(source, 0), SourceAt(source, s, n));
      assert Terminates(source, s, SourceAt(source, s, n).s);
    }
  }

  /** The compiled code does not return from a run that does not end and stays on the tape, nor is it about to panic. */
  lemma KeepsRunning(source: string, host: Host, len: nat, notes: Notes, s: State, n: nat)
    requires Program(Effective(source, 0), host, Compiled(source, host), notes)
    requires s.ptr == 0 && len > 0 && !Leaves(source, len, s) && Diverges(source, s)
    ensures var t := TargetAt(Compiled(source, host), host, len, s, n);
      t.Running? && (t.block, t.index) in notes && notes[(t.block, t.index)].At?
  {
    hide Effective, Compiled, Program;
    var (text, t) := (Effective(source, 0), TargetAt(Compiled(source, host), host, len, s, n));
    RunMatches(text, host, len, Compiled(source, host), notes, s, n);
    if t.Returned? && t.value == 0 {
      EndReached(source, s, t.s);
    } else if t.Returned? || notes[(t.block, t.index)].Panic? {
      AstrayLeaves(source, len, s, t.s);
    }
  }

  lemma ReachedAt(source: string, s: State, pos: nat, u: State) returns (n: nat)
    requires Reaches(Effective(source, 0), 0, s, pos, u)
    ensures SourceAt(source, s, n) == Config(pos, u)
  {
    hide Effective;
    n :| ReachesIn(Effective(source, 0), 0, s, pos, u, n);
  }

  lemma EndReached(source: string, s: State, u: State)
    requires Reaches(Effective(source, 0), 0, s, |Effective(source, 0)|, u)
    ensures !Diverges(source, s)
  {
    hide Effective;
    var m := ReachedAt(source, s, |Effective(source, 0)|, u);
    assert Halted(Effective(source, 0), SourceAt(source, s, m));
  }

  lemma AstrayLeaves(source: string, len: nat, s: State, u: State)
    requires Astray(Effective(source, 0), len, s, u)
    ensures Leaves(source, len, s)
  {
    hide Effective;
    var pos: nat :| Reaches(Effective(source, 0), 0, s, pos, u);
    var m := ReachedAt(source, s, pos, u);
    assert !InTape(len, SourceAt(source, s, m).s);
  }

  function RankAt(graph: Graph, t: Target): nat {
    if t.Running? then Rank(graph, t.block, t.index) else 0
  }

  lemma FollowOne(source: string, host: Host, len: nat, notes: Notes, s: State, n: nat, m: nat) returns (m': nat)
    requires Program(Effective(source, 0), host, Compiled(source, host), notes)
    requires s.ptr == 0 && len > 0 && !Leaves(source, len, s) && Diverges(source, s)
    requires InStep(source, Compiled(source, host), notes, s, 0, TargetAt(Compiled(source, host), host, len, s, n), m)
    ensures var (graph, t') := (Compiled(source, host), TargetAt(Compiled(source, host), host, len, s, n + 1));
      && InStep(source, graph, notes, s, 0, t', m') && m <= m'
      && (m < m' || RankAt(graph, t') < RankAt(graph, TargetAt(graph, host, len, s, n)))
  {
    hide Compiled, Justified, Leaves, Diverges, Effective, SourceAt, Program, Execute, Rank;
    var graph := Compiled(source, host);
    m' := Stepping(source, host, len, graph, notes, s, 0, TargetAt(graph, host, len, s, n), m);
    KeepsRunning(source, host, len, notes, s, n + 1);
  }

  /** It gets past every step of the source. */
  lemma {:induction false} Following(source: string, host: Host, len: nat, notes: Notes, s: State, goal: nat, n: nat,
                                     m: nat)
    returns (n': nat, m': nat)
    requires Program(Effective(source, 0), host, Compiled(source, host), notes)
    requires s.ptr == 0 && len > 0 && !Leaves(source, len, s) && Diverges(source, s)
    requires InStep(source, Compiled(source, host), notes, s, 0, TargetAt(Compiled(source, host), host, len, s, n), m)
    ensures m' >= goal
    ensures InStep(source, Compiled(source, host), notes, s, 0, TargetAt(Compiled(source, host), host, len, s, n'), m')
    decreases if m < goal then goal - m else 0,
              RankAt(Compiled(source, host), TargetAt(Compiled(source, host), host, len, s, n))
  {
    hide Compiled, Leaves, Diverges, Effective, Program, InStep, RankAt, TargetAt;
    if m >= goal {
      n', m' := n, m;
    } else {
      var next := FollowOne(source, host, len, notes, s, n, m);
      n', m' := Following(source, host, len, notes, s, goal, n + 1, next);
    }
  }

  /** If the source run stays on the tape and never ends, the compiled code never returns, and for every step of the
      source it reaches a state that the source has then or later. */
  lemma DivergingFollowed(source: string, host: Host, len: nat, s: State, n: nat) returns (k: nat, m: nat)
    requires s.ptr == 0 && len > 0 && !Leaves(source, len, s) && Diverges(source, s)
    ensures forall i: nat :: TargetAt(Compiled(source, host), host, len, s, i).Running?
    ensures m >= n && TargetAt(Compiled(source, host), host, len, s, k).s == SourceAt(source, s, m).s
  {
    hide Compiled, Program, Leaves, Diverges, Effective;
    var notes := GeneratedProgram(source, host);
    assert Program(Effective(source, 0), host, Compiled(source, host), notes) by {
      CompiledIs(source, host);
    }
    forall i: nat ensures TargetAt(Compiled(source, host), host, len, s, i).Running? {
      KeepsRunning(source, host, len, notes, s, i);
    }
    StartsInStep(source, Compiled(source, host), host, len, notes, s);
    k, m := Following(source, host, len, notes, s, n, 0, 0);
  }

  lemma StartsInStep(source: string, graph: Graph, host: Host, len: nat, notes: Notes, s: State)
    requires Program(Effective(source, 0), host, graph, notes)
    ensures InStep(source, graph, notes, s, 0, TargetAt(graph, host, len, s, 0), 0)
  {
    hide AllJustified, Effective;
    assert SourceAt(source, s, 0) == Config(0, s);
  }

  // ----- output -----

  /** What a compiled run has written. */
  function OutputOf(t: Target): seq<Byte> {
    if t.Stuck? then [] else t.s.output
  }

  lemma {:induction false} OutputGrows(text: string, c: Config, n: nat)
    ensures c.s.output <= Run(text, c, n).s.output
    decreases n
  {
    hide Step;
    if n > 0 {
      StepOutput(text, c);
      OutputGrows(text, Step(text, c), n - 1);
    }
  }

  lemma StepOutput(text: string, c: Config)
    ensures c.s.output <= Step(text, c).s.output
  {
    hide FindClose, FindOpen;
  }

  lemma LaterOutput(source: string, s: State, m: nat, n: nat)
    requires m <= n
    ensures SourceAt(source, s, m).s.output <= SourceAt(source, s, n).s.output
  {
    hide Effective;
    RunSplit(Effective(source, 0), Config(0, s), m, n - m);
    OutputGrows(Effective(source, 0), SourceAt(source, s, m), n - m);
  }

  /** Every state of a compiled run is one of the source run, whether or not that stays on the tape. */
  lemma StateOfSource(source: string, host: Host, len: nat, s: State, k: nat) returns (n: nat)
    requires s.ptr == 0 && len > 0
    ensures var t := TargetAt(Compiled(source, host), host, len, s, k); !t.Stuck? && SourceAt(source, s, n).s == t.s
  {
    hide Compiled, Program, Effective;
    var notes := GeneratedProgram(source, host);
    CompiledIs(source, host);
    var (text, t) := (Effective(source, 0), TargetAt(Compiled(source, host), host, len, s, k));
    RunMatches(text, host, len, Compiled(source, host), notes, s, k);
    var pos: nat :| Reaches(text, 0, s, pos, t.s);
    n := ReachedAt(source, s, pos, t.s);
  }

  /** For source runs that stay on the tape, both machines write the same output, also if they run for ever: whatever
      one has written at some step, the other has written at some step. */
  lemma SameOutput(source: string, host: Host, len: nat, s: State, output: seq<Byte>)
    requires s.ptr == 0 && len > 0 && !Leaves(source, len, s)
    ensures (exists n: nat :: output <= SourceAt(source, s, n).s.output)
      <==> exists k: nat :: output <= OutputOf(TargetAt(Compiled(source, host), host, len, s, k))
  {
    hide Compiled, Leaves, SourceAt, Effective, Halted, Diverges;
    if n: nat :| output <= SourceAt(source, s, n).s.output {
      var k := OutputWritten(source, host, len, s, n);
      assert output <= OutputOf(TargetAt(Compiled(source, host), host, len, s, k));
    }
    if k: nat :| output <= OutputOf(TargetAt(Compiled(source, host), host, len, s, k)) {
      var n := StateOfSource(source, host, len, s, k);
      assert output <= SourceAt(source, s, n).s.output;
    }
  }

  /** What the source has written, the compiled code writes. */
  lemma OutputWritten(source: string, host: Host, len: nat, s: State, n: nat) returns (k: nat)
    requires s.ptr == 0 && len > 0 && !Leaves(source, len, s)
    ensures SourceAt(source, s, n).s.output <= OutputOf(TargetAt(Compiled(source, host), host, len, s, k))
  {
    hide Compiled, Leaves, Effective, Diverges;
    DivergesOrNot(source, s);
    if Diverges(source, s) {
      var m;
      k, m := DivergingFollowed(source, host, len, s, n);
      LaterOutput(source, s, n, m);
    } else {
      var u :| Terminates(source, s, u);
      DoneInsideMeansZero(source, host, len, s, u);
      k :| TargetAt(Compiled(source, host), host, len, s, k) == Returned(0, u);
      LastOutput(source, s, n, u);
    }
  }

  lemma LastOutput(source: string, s: State, n: nat, u: State)
    requires Terminates(source, s, u)
    ensures SourceAt(source, s, n).s.output <= u.output
  {
    hide Effective;
    var text := Effective(source, 0);
    var end: nat :| Halted(text, SourceAt(source, s, end)) && SourceAt(source, s, end).s == u;
    if n <= end {
      LaterOutput(source, s, n, end);
    } else {
      RunSplit(text, Config(0, s), end, n - end);
      HaltedStays(text, SourceAt(source, s, end), n - end);
    }
  }

  // ----- linking -----

  /** The compiled blocks have no jump over the end of a block, and none to a block that does not exist. */
  lemma CompiledLinkable(source: string, host: Host)
    ensures Linkable(Compiled(source, host))
  {
    hide Effective, Compiled;
    var notes := GeneratedProgram(source, host);
    CompiledIs(source, host);
    var (graph, text) := (Compiled(source, host), Effective(source, 0));
    forall b: nat, i: nat | HasCode(graph, b, i) ensures JumpsOk(graph, b, i) {
      assert Justified(text, host, graph, notes, b, i, graph[b][i]);
      JustifiedJumps(text, host, graph, notes, b, i);
    }
  }

  lemma JustifiedJumps(text: string, host: Host, graph: Graph, notes: Notes, b: nat, i: nat)
    requires HasCode(graph, b, i) && Justified(text, host, graph, notes, b, i, graph[b][i])
    requires forall c, j :: (c, j) in notes ==> HasCode(graph, c, j)
    ensures JumpsOk(graph, b, i)
  {
    hide SameEffect, Advances;
  }
}
