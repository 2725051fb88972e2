/** Enumerating register assignments (`crates/patchouly-macros/src/perm.rs`). */
module Permutations {
  import opened Wrappers
  import opened Words
  import opened Stencils

  /** A location for each operand: zero for the stack, or a register.  Inputs may share a register, outputs may not. */
  predicate Assignment(t: seq<nat>, inputs: nat, outputs: nat, registers: nat) {
    && |t| == inputs + outputs
    && (forall i :: 0 <= i < |t| ==> t[i] < registers)
    && OutputsDistinct(t, inputs)
  }

  predicate OutputsDistinct(t: seq<nat>, inputs: nat) {
    forall i, j :: inputs <= i < j < |t| && t[i] != 0 ==> t[i] != t[j]
  }

  /** Lexicographic order, the first difference being at `k`. */
  ghost predicate LessAt(a: seq<nat>, b: seq<nat>, k: nat) {
    k < |a| && k < |b| && a[..k] == b[..k] && a[k] < b[k]
  }

  ghost predicate Less(a: seq<nat>, b: seq<nat>) {
    exists k: nat :: LessAt(a, b, k)
  }

  function Zeros(n: nat): (r: seq<nat>)
    ensures |r| == n && forall i :: 0 <= i < n ==> r[i] == 0
  {
    seq(n, _ => 0)
  }

  lemma PrefixAt(a: seq<nat>, b: seq<nat>, k: nat, i: nat)
    requires i < k <= |a| && k <= |b| && a[..k] == b[..k]
    ensures a[i] == b[i]
  {
    assert a[..k][i] == b[..k][i];
  }

  lemma SharesShorter(a: seq<nat>, b: seq<nat>, k: nat, m: nat)
    requires m <= k <= |a| && k <= |b| && a[..k] == b[..k]
    ensures a[..m] == b[..m]
  {
    assert a[..m] == a[..k][..m] && b[..m] == b[..k][..m];
  }

  lemma LessTransitive(a: seq<nat>, b: seq<nat>, c: seq<nat>)
    requires Less(a, b) && Less(b, c)
    ensures Less(a, c)
  {
    var k: nat :| LessAt(a, b, k);
    var l: nat :| LessAt(b, c, l);
    var m := if k < l then k else l;
    assert a[..m] == c[..m] by {
      assert a[..m] == a[..k][..m] && b[..m] == b[..k][..m] && b[..m] == b[..l][..m] && c[..m] == c[..l][..m];
    }
    if m < l {
      PrefixAt(b, c, l, m);
    }
    if m < k {
      PrefixAt(a, b, k, m);
    }
    assert LessAt(a, c, m);
  }

  lemma LessIrreflexive(a: seq<nat>)
    ensures !Less(a, a)
  {
  }

  /** Tuples of the same length are comparable. */
  lemma {:induction false} Comparable(a: seq<nat>, b: seq<nat>, k: nat)
    requires |a| == |b| && k <= |a| && a[..k] == b[..k]
    ensures a == b || Less(a, b) || Less(b, a)
    decreases |a| - k
  {
    if k < |a| {
      if a[k] == b[k] {
        assert a[..k + 1] == a[..k] + [a[k]] && b[..k + 1] == b[..k] + [b[k]];
        Comparable(a, b, k + 1);
      } else {
        assert LessAt(a, b, k) || LessAt(b, a, k);
      }
    } else {
      assert a == a[..k] && b == b[..k];
    }
  }

  /** Nothing comes before a tuple of zeros, and what shares the prefix before trailing zeros comes after. */
  lemma ZerosFirst(c: seq<nat>, i: nat, t: seq<nat>)
    requires i <= |c| == |t| && c[..i] == t[..i] && forall k :: i <= k < |c| ==> c[k] == 0
    ensures c == t || Less(c, t)
  {
    Comparable(c, t, i);
    if k: nat :| LessAt(t, c, k) {
      assert k < i;
      PrefixAt(c, t, i, k);
    }
  }

  lemma NothingBeforeZeros(n: nat)
    ensures forall t: seq<nat> :: |t| == n ==> !Less(t, Zeros(n))
  {
  }

  // ----- the next assignment -----

  /** Value `v` cannot be put at `i` because an output before has it. */
  ghost predicate Taken(t: seq<nat>, inputs: nat, i: nat, v: nat)
    requires i <= |t|
  {
    exists k: nat :: inputs <= k < i && t[k] == v
  }

  /** No assignment after `old` shares its first `i` digits. */
  ghost predicate NoneWith(before: seq<nat>, inputs: nat, outputs: nat, registers: nat, i: nat)
    requires i <= |before| == inputs + outputs
  {
    forall t :: Assignment(t, inputs, outputs, registers) && t[..i] == before[..i] ==> !Less(before, t)
  }

  /** `next` is the first assignment after `before`. */
  ghost predicate IsSuccessor(before: seq<nat>, next: seq<nat>, inputs: nat, outputs: nat, registers: nat) {
    && Assignment(next, inputs, outputs, registers) && Less(before, next)
    && forall t :: Assignment(t, inputs, outputs, registers) && Less(before, t) ==> t == next || Less(next, t)
  }

  ghost predicate IsLast(before: seq<nat>, inputs: nat, outputs: nat, registers: nat) {
    forall t :: Assignment(t, inputs, outputs, registers) ==> !Less(before, t)
  }

  lemma NoneWithAll(before: seq<nat>, inputs: nat, outputs: nat, registers: nat)
    requires Assignment(before, inputs, outputs, registers)
    ensures NoneWith(before, inputs, outputs, registers, |before|)
  {
    forall t | Assignment(t, inputs, outputs, registers) && t[..|before|] == before[..|before|]
        ensures !Less(before, t) {
      assert t == t[..|before|] && before == before[..|before|];
      LessIrreflexive(before);
    }
  }

  lemma NoneWithNone(before: seq<nat>, inputs: nat, outputs: nat, registers: nat)
    requires |before| == inputs + outputs && NoneWith(before, inputs, outputs, registers, 0)
    ensures IsLast(before, inputs, outputs, registers)
  {
    forall t | Assignment(t, inputs, outputs, registers) ensures !Less(before, t) {
      assert t[..0] == before[..0];
    }
  }

  /** All larger values of digit `i` are taken: no later assignment shares the digits before it. */
  lemma DigitExhausted(before: seq<nat>, inputs: nat, outputs: nat, registers: nat, i: nat)
    requires Assignment(before, inputs, outputs, registers) && i < |before|
    requires NoneWith(before, inputs, outputs, registers, i + 1)
    requires forall v: nat :: before[i] < v < registers ==> Taken(before, inputs, i, v)
    ensures NoneWith(before, inputs, outputs, registers, i)
  {
    forall t | Assignment(t, inputs, outputs, registers) && t[..i] == before[..i] ensures !Less(before, t) {
      if k: nat :| LessAt(before, t, k) {
        if k < i {
          PrefixAt(t, before, i, k);
        } else {
          SharesOrRaises(before, inputs, outputs, registers, i, t, k);
        }
      }
    }
  }

  lemma SharesOrRaises(before: seq<nat>, inputs: nat, outputs: nat, registers: nat, i: nat, t: seq<nat>, k: nat)
    requires Assignment(before, inputs, outputs, registers) && Assignment(t, inputs, outputs, registers)
    requires i <= k && i < |before| && t[..i] == before[..i] && LessAt(before, t, k)
    requires NoneWith(before, inputs, outputs, registers, i + 1)
    ensures k == i && before[i] < t[i] < registers && !Taken(before, inputs, i, t[i])
  {
    if k > i {
      SharesShorter(before, t, k, i + 1);
    }
    forall l: nat | inputs <= l < i ensures before[l] != t[i] {
      PrefixAt(before, t, i, l);
    }
  }

  /** Raising digit `i` to the first value that is not taken gives the next assignment. */
  lemma Raised(before: seq<nat>, inputs: nat, outputs: nat, registers: nat, i: nat, v: nat, next: seq<nat>)
    requires Assignment(before, inputs, outputs, registers) && i < |before|
    requires NoneWith(before, inputs, outputs, registers, i + 1)
    requires before[i] < v < registers && !Taken(before, inputs, i, v)
    requires forall w: nat :: before[i] < w < v ==> Taken(before, inputs, i, w)
    requires next == before[..i] + [v] + Zeros(|before| - i - 1)
    ensures IsSuccessor(before, next, inputs, outputs, registers)
  {
    hide NoneWith, Less;
    assert next[..i] == before[..i];
    RaisedAssignment(before, inputs, outputs, registers, i, v, next);
    LessWitness(before, next, i);
    forall t | Assignment(t, inputs, outputs, registers) && Less(before, t) ensures t == next || Less(next, t) {
      RaisedLeast(before, inputs, outputs, registers, i, v, next, t);
    }
  }

  lemma LessWitness(a: seq<nat>, b: seq<nat>, k: nat)
    requires LessAt(a, b, k)
    ensures Less(a, b)
  {
  }

  lemma RaisedAssignment(before: seq<nat>, inputs: nat, outputs: nat, registers: nat, i: nat, v: nat, next: seq<nat>)
    requires Assignment(before, inputs, outputs, registers) && i < |before|
    requires before[i] < v < registers && !Taken(before, inputs, i, v)
    requires next == before[..i] + [v] + Zeros(|before| - i - 1)
    ensures Assignment(next, inputs, outputs, registers)
  {
    forall k, l | inputs <= k < l < |next| && next[k] != 0 ensures next[k] != next[l] {
      if l < i {
        assert next[k] == before[k] && next[l] == before[l];
      } else if k < i == l {
        assert next[k] == before[k] && next[l] == v;
      }
    }
  }

  lemma RaisedLeast(before: seq<nat>, inputs: nat, outputs: nat, registers: nat, i: nat, v: nat, next: seq<nat>,
                    t: seq<nat>)
    requires Assignment(before, inputs, outputs, registers) && i < |before|
    requires NoneWith(before, inputs, outputs, registers, i + 1)
    requires before[i] < v < registers
    requires forall w: nat :: before[i] < w < v ==> Taken(before, inputs, i, w)
    requires next == before[..i] + [v] + Zeros(|before| - i - 1)
    requires Assignment(t, inputs, outputs, registers) && Less(before, t)
    ensures t == next || Less(next, t)
  {
    hide NoneWith, Assignment;
    Lengths(before, t, inputs, outputs, registers);
    var k: nat :| LessAt(before, t, k);
    assert next[..i] == before[..i];
    if k < i {
      assert next[..k] == next[..i][..k] == before[..i][..k] == before[..k];
      assert next[k] == before[k];
      LessWitness(next, t, k);
    } else {
      assert t[..i] == t[..k][..i] == before[..k][..i] == before[..i];
      SharesOrRaises(before, inputs, outputs, registers, i, t, k);
      if t[i] == v {
        assert t[..i + 1] == t[..i] + [v] && next[..i + 1] == next[..i] + [v];
        ZerosFirst(next, i + 1, t);
      } else {
        LessWitness(next, t, i);
      }
    }
  }

  lemma Lengths(a: seq<nat>, b: seq<nat>, inputs: nat, outputs: nat, registers: nat)
    requires Assignment(a, inputs, outputs, registers) && Assignment(b, inputs, outputs, registers)
    ensures |a| == |b| == inputs + outputs
  {
  }

  // ----- the iterator -----

  ghost predicate Increasing(s: seq<seq<nat>>) {
    forall i, j :: 0 <= i < j < |s| ==> Less(s[i], s[j])
  }

  class RegPermutation {
    const inputs: nat
    ghost const outputs: nat
    /** The number of registers, and one for the stack. */
    ghost const limit: nat
    var current: seq<nat>
    /** `limit`, until the enumeration is over. */
    var registers: Option<nat>
    /** All assignments returned so far. */
    ghost var yielded: seq<seq<nat>>

    /** What has been returned is what comes before the current assignment; in the end, that is all. */
    ghost predicate Valid()
      reads this
    {
      && limit > 0 && (registers.Some? ==> registers.value == limit && Assignment(current, inputs, outputs, limit))
      && Increasing(yielded)
      && forall t :: t in yielded <==> Assignment(t, inputs, outputs, limit) && (registers.None? || Less(t, current))
    }

    constructor (inputs: nat, outputs: nat, registers: nat)
      requires registers > 0
      ensures Valid() && yielded == [] && this.registers == Some(registers)
      ensures this.inputs == inputs && this.outputs == outputs && this.limit == registers
    {
      this.inputs := inputs;
      this.outputs := outputs;
      this.limit := registers;
      current := Zeros(inputs + outputs);
      this.registers := Some(registers);
      yielded := [];
      NothingBeforeZeros(inputs + outputs);
    }

    /** Returns the current assignment and goes to the next one, or to the end. */
    method Next() returns (r: Option<seq<nat>>)
      requires Valid()
      modifies this
      ensures Valid()
      ensures old(registers).None? ==> r == None && registers.None? && yielded == old(yielded)
      ensures old(registers).Some? ==>
        && r == Some(old(current)) && Assignment(old(current), inputs, outputs, limit)
          && yielded == old(yielded) + [old(current)]
        && if registers.Some? then IsSuccessor(old(current), current, inputs, outputs, limit)
           else IsLast(old(current), inputs, outputs, limit)
    {
      hide Less, OutputsDistinct, IsLast, Increasing, NoneWith;
      var limitNow: nat;
      match registers {
        case None => return None;
        case Some(n) => limitNow := n;
      }
      ghost var before := current;
      r := Some(current);
      if current == [] {
        registers := None;
      }
      NoneWithAll(before, inputs, outputs, limit);
      var found := false;
      var i := |current|;
      while i > 0 && !found
        invariant 0 <= i <= |before| && yielded == old(yielded)
        invariant registers == if i == 0 && !found then None else Some(limit)
        invariant !found ==> current == before[..i] + Zeros(|before| - i) && NoneWith(before, inputs, outputs, limit, i)
        invariant found ==> IsSuccessor(before, current, inputs, outputs, limit)
      {
        i := i - 1;
        found := Increment(i, limitNow, before);
      }
      if !found {
        NoneWithNone(before, inputs, outputs, limit);
      }
      YieldedStep(yielded, before, current, registers.None?, inputs, outputs, limit);
      yielded := yielded + [before];
    }

    /** Raises digit `i` to its next free value, or resets it. */
    method Increment(i: nat, limitNow: nat, ghost before: seq<nat>) returns (found: bool)
      requires Assignment(before, inputs, outputs, limit) && i < |before| && limitNow == limit > 0
      requires registers == Some(limit)
      requires current == before[..i + 1] + Zeros(|before| - i - 1) && NoneWith(before, inputs, outputs, limit, i + 1)
      modifies `current, `registers
      ensures found ==> registers == Some(limit) && IsSuccessor(before, current, inputs, outputs, limit)
      ensures !found ==> current == before[..i] + Zeros(|before| - i) && NoneWith(before, inputs, outputs, limit, i)
      ensures !found ==> registers == if i == 0 then None else Some(limit)
    {
      hide Less, OutputsDistinct, IsSuccessor, NoneWith;
      assert current == before[..i] + [before[i]] + Zeros(|before| - i - 1);
      while true
        invariant |current| == |before| && before[i] <= current[i] < limit && registers == Some(limit)
        invariant current == before[..i] + [current[i]] + Zeros(|before| - i - 1)
        invariant forall v: nat :: before[i] < v <= current[i] ==> Taken(before, inputs, i, v)
        decreases limit - current[i]
      {
        var v := current[i] + 1;
        current := current[i := v];
        assert forall w: nat :: before[i] < w < v ==> Taken(before, inputs, i, w);
        if current[i] >= limitNow {
          current := current[i := 0];
          if i == 0 {
            registers := None;
          }
          DigitExhausted(before, inputs, outputs, limit, i);
          return false;
        }
        if i < inputs {
          Raised(before, inputs, outputs, limit, i, v, current);
          return true;
        }
        if forall k :: inputs <= k < i ==> current[k] != current[i] {
          assert forall k: nat :: inputs <= k < i ==> before[k] == current[k];
          Raised(before, inputs, outputs, limit, i, v, current);
          return true;
        }
        ghost var l :| inputs <= l < i && current[l] == current[i];
        assert before[l] == current[i];
      }
    }
  }

  /** Returning the current assignment keeps the enumeration in order and complete. */
  lemma YieldedStep(yielded: seq<seq<nat>>, before: seq<nat>, next: seq<nat>, over: bool, inputs: nat, outputs: nat,
                    limit: nat)
    requires Increasing(yielded) && Assignment(before, inputs, outputs, limit)
    requires forall t :: t in yielded <==> Assignment(t, inputs, outputs, limit) && Less(t, before)
    requires if over then IsLast(before, inputs, outputs, limit) else IsSuccessor(before, next, inputs, outputs, limit)
    ensures Increasing(yielded + [before])
    ensures forall t :: t in yielded + [before] <==> Assignment(t, inputs, outputs, limit) && (over || Less(t, next))
  {
    hide Less, OutputsDistinct;
    forall t | Assignment(t, inputs, outputs, limit) ensures t in yielded + [before] <==> (over || Less(t, next)) {
      Comparable(t, before, 0);
      LessIrreflexive(before);
      LessIrreflexive(next);
      if Less(t, before) && !over {
        LessTransitive(t, before, next);
      }
      if Less(before, t) && Less(t, next) {
        LessTransitive(next, t, next);
      }
    }
  }

  // ----- the enumeration ends -----

  /** The tuple as a number. */
  function Rank(t: seq<nat>, registers: nat): nat {
    if t == [] then 0 else registers * Rank(t[..|t| - 1], registers) + t[|t| - 1]
  }

  lemma {:induction false} RankBelow(t: seq<nat>, registers: nat)
    requires forall i :: 0 <= i < |t| ==> t[i] < registers
    ensures Rank(t, registers) < Power(registers, |t|)
  {
    if t != [] {
      var init := t[..|t| - 1];
      RankBelow(init, registers);
      NextMultiple(registers, Rank(init, registers));
      MultiplesOrdered(registers, Rank(init, registers) + 1, Power(registers, |init|));
    }
  }

  /** Later tuples are larger numbers. */
  lemma {:induction false} RankGrows(a: seq<nat>, b: seq<nat>, registers: nat, k: nat)
    requires |a| == |b| && LessAt(a, b, k) && forall i :: 0 <= i < |a| ==> a[i] < registers
    ensures Rank(a, registers) < Rank(b, registers)
    decreases |a|
  {
    var (n, r) := (|a| - 1, registers);
    if k < n {
      assert a[..n][..k] == a[..k] && b[..n][..k] == b[..k];
      RankGrows(a[..n], b[..n], r, k);
      NextMultiple(r, Rank(a[..n], r));
      MultiplesOrdered(r, Rank(a[..n], r) + 1, Rank(b[..n], r));
    }
  }

  lemma SuccessorGrows(before: seq<nat>, next: seq<nat>, inputs: nat, outputs: nat, registers: nat)
    requires Assignment(before, inputs, outputs, registers) && IsSuccessor(before, next, inputs, outputs, registers)
    ensures Rank(before, registers) < Rank(next, registers) < Power(registers, inputs + outputs)
  {
    var k: nat :| LessAt(before, next, k);
    RankGrows(before, next, registers, k);
    RankBelow(next, registers);
  }

  /** Running the iterator to its end gives exactly the assignments, each once and in lexicographic order. */
  method Enumerate(inputs: nat, outputs: nat, registers: nat) returns (all: seq<seq<nat>>)
    requires registers > 0
    ensures Increasing(all)
    ensures forall t :: t in all <==> Assignment(t, inputs, outputs, registers)
  {
    hide Less, OutputsDistinct, Increasing, Rank, Power;
    var perm := new RegPermutation(inputs, outputs, registers);
    all := [];
    RankBelow(perm.current, registers);
    while true
      invariant perm.Valid() && all == perm.yielded && fresh(perm)
      invariant perm.inputs == inputs && perm.outputs == outputs && perm.limit == registers
      invariant perm.registers.Some? ==> Rank(perm.current, registers) < Power(registers, inputs + outputs)
      decreases if perm.registers.None? then 0
        else 1 + Power(registers, inputs + outputs) - Rank(perm.current, registers)
    {
      ghost var before := perm.current;
      var next := perm.Next();
      if next.None? {
        break;
      }
      if perm.registers.Some? {
        SuccessorGrows(before, perm.current, inputs, outputs, registers);
      }
      all := all + [next.value];
    }
  }
}
