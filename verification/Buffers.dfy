/** Writes to byte buffers, one after the other. */
module Buffers {
  import opened Words

  /** `dest` with `bytes` written at `at`. */
  function Written(dest: seq<Byte>, at: nat, bytes: seq<Byte>): (r: seq<Byte>)
    requires at + |bytes| <= |dest|
    ensures |r| == |dest|
    ensures forall i :: 0 <= i < |dest| ==> r[i] == if at <= i < at + |bytes| then bytes[i - at] else dest[i]
  {
    dest[..at] + bytes + dest[at + |bytes|..]
  }

  datatype Write = Write(at: nat, bytes: seq<Byte>) {
    function End(): nat {
      at + |bytes|
    }

    predicate Covers(x: int) {
      at <= x < End()
    }
  }

  predicate AllFit(writes: seq<Write>, size: nat) {
    forall k :: 0 <= k < |writes| ==> writes[k].End() <= size
  }

  /** `dest` after all writes, in order. */
  function WriteAll(dest: seq<Byte>, writes: seq<Write>): (r: seq<Byte>)
    requires AllFit(writes, |dest|)
    ensures |r| == |dest|
  {
    if writes == [] then dest
    else
      var last := writes[|writes| - 1];
      Written(WriteAll(dest, writes[..|writes| - 1]), last.at, last.bytes)
  }

  /** The buffer holds `bytes` at `at`. */
  predicate Holds(buffer: seq<Byte>, at: nat, bytes: seq<Byte>) {
    at + |bytes| <= |buffer| && buffer[at..at + |bytes|] == bytes
  }

  predicate Covered(writes: seq<Write>, x: int) {
    exists k :: 0 <= k < |writes| && writes[k].Covers(x)
  }

  predicate Apart(a: Write, b: Write) {
    a.End() <= b.at || b.End() <= a.at
  }

  /** A byte that no write covers stays. */
  lemma {:induction false} WriteAllElsewhere(dest: seq<Byte>, writes: seq<Write>, x: nat)
    requires AllFit(writes, |dest|) && x < |dest| && !Covered(writes, x)
    ensures WriteAll(dest, writes)[x] == dest[x]
  {
    if writes != [] {
      var init := writes[..|writes| - 1];
      assert forall k :: 0 <= k < |init| ==> init[k] == writes[k];
      WriteAllElsewhere(dest, init, x);
    }
  }

  /** What a write leaves stays, when no later write touches it. */
  lemma {:induction false} WriteAllHolds(dest: seq<Byte>, writes: seq<Write>, k: nat)
    requires AllFit(writes, |dest|) && k < |writes|
    requires forall j :: k < j < |writes| ==> Apart(writes[k], writes[j])
    ensures Holds(WriteAll(dest, writes), writes[k].at, writes[k].bytes)
  {
    var last := writes[|writes| - 1];
    var before := WriteAll(dest, writes[..|writes| - 1]);
    if k == |writes| - 1 {
      WrittenHolds(before, last);
    } else {
      WriteAllHolds(dest, writes[..|writes| - 1], k);
      WrittenKeeps(before, last, writes[k]);
    }
  }

  lemma WrittenHolds(dest: seq<Byte>, w: Write)
    requires w.End() <= |dest|
    ensures Holds(Written(dest, w.at, w.bytes), w.at, w.bytes)
  {
  }

  lemma WrittenKeeps(dest: seq<Byte>, w: Write, kept: Write)
    requires w.End() <= |dest| && Holds(dest, kept.at, kept.bytes) && Apart(kept, w)
    ensures Holds(Written(dest, w.at, w.bytes), kept.at, kept.bytes)
  {
    var r := Written(dest, w.at, w.bytes);
    assert r[kept.at..kept.End()] == dest[kept.at..kept.End()];
  }

  /** What the buffer holds stays when no write touches it. */
  lemma {:induction false} WriteAllKeeps(dest: seq<Byte>, writes: seq<Write>, kept: Write)
    requires AllFit(writes, |dest|) && Holds(dest, kept.at, kept.bytes)
    requires forall k :: 0 <= k < |writes| ==> Apart(kept, writes[k])
    ensures Holds(WriteAll(dest, writes), kept.at, kept.bytes)
  {
    if writes != [] {
      var init, last := writes[..|writes| - 1], writes[|writes| - 1];
      WriteAllKeeps(dest, init, kept);
      WrittenKeeps(WriteAll(dest, init), last, kept);
    }
  }

  /** The writes one by one. */
  lemma WriteAllPrefix(dest: seq<Byte>, writes: seq<Write>, k: nat)
    requires AllFit(writes, |dest|) && k <= |writes|
    ensures AllFit(writes[..k], |dest|) && (k == 0 ==> WriteAll(dest, writes[..k]) == dest)
    ensures k < |writes| ==> AllFit(writes[..k + 1], |dest|)
    ensures k < |writes| ==>
      WriteAll(dest, writes[..k + 1]) == Written(WriteAll(dest, writes[..k]), writes[k].at, writes[k].bytes)
  {
    hide Written;
    if k < |writes| {
      var init := writes[..k + 1];
      assert init[..|init| - 1] == writes[..k] && init[|init| - 1] == writes[k];
    }
  }

  /** One more write. */
  lemma WriteSnoc(dest: seq<Byte>, writes: seq<Write>, w: Write)
    requires AllFit(writes, |dest|) && w.End() <= |dest|
    ensures AllFit(writes + [w], |dest|)
    ensures WriteAll(dest, writes + [w]) == Written(WriteAll(dest, writes), w.at, w.bytes)
  {
    hide Written;
    var all := writes + [w];
    assert all[..|writes|] == writes;
  }
}
