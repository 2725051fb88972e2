/** Allocation of registers and stack slots to values (`src/regs.rs`). */
module Regs {
  import opened Wrappers
  import opened Slabs
  import opened Locations

  type BlockId = b: nat | b < 0x1_0000

  datatype Value = Value(slot: nat, scope: BlockId)

  const U16_MAX := 0xFFFF

  // ----- specification -----

  /** The fields of an allocator, as a value. */
  datatype Alloc = Alloc(
    slots: Slab<Location>,
    registers: Slab<()>,
    stackSlots: Slab<()>,
    stackSize: nat,
    regs: nat)
  {
    predicate Holds(location: Location) {
      match location
      case Register(r) => registers.Has(r)
      case Stack(s) => stackSlots.Has(s)
    }

    /** Every value in use has a location of its own. */
    ghost predicate Valid() {
      && slots.Valid() && registers.Valid() && stackSlots.Valid()
      && |registers.entries| == regs <= U16_MAX
      && |slots.entries| <= U16_MAX
      && |stackSlots.entries| == stackSize <= U16_MAX
      && slots.Len() == registers.Len() + stackSlots.Len()
      && (forall k :: slots.Has(k) ==> Holds(slots.Get(k)))
      && (forall j, k :: slots.Has(j) && slots.Has(k) && j != k ==> slots.Get(j) != slots.Get(k))
    }

    /** Every location in use belongs to a value. */
    ghost predicate NoLeak() {
      forall l :: Holds(l) ==> exists k :: slots.Has(k) && slots.Get(k) == l
    }

    /** Registers stay below the number of registers, and slots below the reported stack size. */
    predicate InBounds(location: Location) {
      match location
      case Register(r) => r < regs
      case Stack(s) => s < stackSize
    }

    /** The location the next value gets. */
    function NextLocation(): Location {
      if registers.Len() < regs then Register(registers.NextKey()) else Stack(stackSlots.NextKey())
    }

    function Allocated(scope: BlockId): (r: Option<(Value, Alloc)>)
      requires Valid()
    {
      if slots.Len() >= U16_MAX then None
      else if registers.Len() < regs then
        var reg := registers.NextKey() % 0x1_0000;
        Some((Value(slots.NextKey() % 0x1_0000, scope),
              Alloc(slots.Insert(Register(reg)), registers.Insert(()), stackSlots, stackSize, regs)))
      else
        var slot := stackSlots.NextKey();
        if slot > U16_MAX then None
        else
          var size := if slot + 1 > stackSize then slot + 1 else stackSize;
          Some((Value(slots.NextKey() % 0x1_0000, scope),
                Alloc(slots.Insert(Stack(slot)), registers, stackSlots.Insert(()), size, regs)))
    }

    function Dropped(slot: nat): (r: Alloc)
      requires Valid() && slots.Has(slot)
    {
      match slots.Get(slot)
      case Register(reg) => this.(slots := slots.Remove(slot), registers := registers.Remove(reg))
      case Stack(s) => this.(slots := slots.Remove(slot), stackSlots := stackSlots.Remove(s))
    }
  }

  /** An allocation fails only when 65535 values are in use.  Otherwise no cast loses bits, the
      slot and the location were free, registers are preferred, and nothing in use is touched. */
  lemma AllocateSound(a: Alloc, scope: BlockId)
    requires a.Valid()
    ensures a.Allocated(scope).None? <==> a.slots.Len() >= U16_MAX
    ensures a.Allocated(scope).Some? ==>
      var (v, b) := a.Allocated(scope).value;
      && b.Valid() && b.regs == a.regs
      && v == Value(a.slots.NextKey(), scope) && !a.slots.Has(v.slot) && v.slot < U16_MAX
      && b.slots.Get(v.slot) == a.NextLocation() && !a.Holds(a.NextLocation())
      && (a.NextLocation().Register? <==> a.registers.Len() < a.regs)
      && b.InBounds(a.NextLocation()) && a.stackSize <= b.stackSize
      && (forall k :: b.slots.Has(k) <==> a.slots.Has(k) || k == v.slot)
      && (forall k :: a.slots.Has(k) ==> b.slots.Get(k) == a.slots.Get(k))
      && (forall l :: b.Holds(l) <==> a.Holds(l) || l == a.NextLocation())
  {
    hide Slab.Valid, Slab.Insert, Slab.Has, Slab.Get;
    if a.slots.Len() < U16_MAX {
      if a.registers.Len() < a.regs {
        assert a.registers.vacant != [];
      } else {
        assert a.registers.Len() >= 0;
        assert a.stackSlots.vacant == [] ==> a.stackSlots.NextKey() < U16_MAX;
        assert a.stackSlots.NextKey() < |a.stackSlots.Insert(()).entries|;
        assert a.Allocated(scope).Some?;
      }
    }
  }

  /** Dropping a value frees its slot and its location, and nothing else; the stack size stays. */
  lemma DropSound(a: Alloc, slot: nat)
    requires a.Valid() && a.slots.Has(slot)
    ensures var b := a.Dropped(slot);
      && b.Valid() && b.regs == a.regs && b.stackSize == a.stackSize
      && (forall k :: b.slots.Has(k) <==> a.slots.Has(k) && k != slot)
      && (forall k :: b.slots.Has(k) ==> b.slots.Get(k) == a.slots.Get(k))
      && (forall l :: b.Holds(l) <==> a.Holds(l) && l != a.slots.Get(slot))
  {
    hide Slab.Valid, Slab.Remove, Slab.Has, Slab.Get;
  }

  // ----- dropping many values -----

  /** The values have slots in use, all different. */
  ghost predicate Droppable(a: Alloc, values: seq<Value>) {
    && (forall i :: 0 <= i < |values| ==> a.slots.Has(values[i].slot))
    && (forall i, j :: 0 <= i < j < |values| ==> values[i].slot != values[j].slot)
  }

  function DropAll(a: Alloc, values: seq<Value>): (r: Alloc)
    requires a.Valid() && Droppable(a, values)
    ensures r.Valid() && r.regs == a.regs && r.stackSize == a.stackSize
    ensures forall k :: a.slots.Has(k) && (forall i :: 0 <= i < |values| ==> values[i].slot != k) ==> r.slots.Has(k)
  {
    if values == [] then a
    else
      hide Slab.Valid, Slab.Has, Slab.Get, Alloc.Valid;
      var init, last := values[..|values| - 1], values[|values| - 1];
      var r := DropAll(a, init);
      assert forall i :: 0 <= i < |init| ==> init[i].slot != last.slot;
      DropSound(r, last.slot);
      r.Dropped(last.slot)
  }

  /** What `DropAll` leaves in use has the location it had, and is none of the dropped values. */
  lemma {:induction false} DropAllLeaves(a: Alloc, values: seq<Value>, k: nat)
    requires a.Valid() && Droppable(a, values) && DropAll(a, values).slots.Has(k)
    ensures a.slots.Has(k) && DropAll(a, values).slots.Get(k) == a.slots.Get(k)
    ensures forall i :: 0 <= i < |values| ==> values[i].slot != k
  {
    hide Slab.Valid, Slab.Has, Slab.Get, Alloc.Valid;
    if values != [] {
      var init, last := values[..|values| - 1], values[|values| - 1];
      assert forall i :: 0 <= i < |init| ==> init[i].slot != last.slot;
      var r := DropAll(a, init);
      DropSound(r, last.slot);
      assert DropAll(a, values) == r.Dropped(last.slot);
      DropAllLeaves(a, init, k);
      forall i | 0 <= i < |values| ensures values[i].slot != k {
        if i < |init| {
          assert values[i] == init[i];
        }
      }
    }
  }

  /** Neither operation loses track of a location. */
  lemma AllocatorKeepsTrack(a: Alloc, scope: BlockId, slot: nat)
    requires a.Valid() && a.NoLeak()
    ensures a.Allocated(scope).Some? ==> a.Allocated(scope).value.1.NoLeak()
    ensures a.slots.Has(slot) ==> a.Dropped(slot).NoLeak()
  {
    if a.slots.Has(slot) {
      DropSound(a, slot);
      var b := a.Dropped(slot);
      forall l | b.Holds(l) ensures exists k :: b.slots.Has(k) && b.slots.Get(k) == l {
        var k :| a.slots.Has(k) && a.slots.Get(k) == l;
        assert b.slots.Has(k);
      }
    }
    if a.Allocated(scope).Some? {
      AllocateSound(a, scope);
      var (v, b) := a.Allocated(scope).value;
      forall l | b.Holds(l) ensures exists k :: b.slots.Has(k) && b.slots.Get(k) == l {
        if l == a.NextLocation() {
          assert b.slots.Has(v.slot);
        } else {
          var k :| a.slots.Has(k) && a.slots.Get(k) == l;
          assert b.slots.Has(k);
        }
      }
    }
  }

  /** A value allocated after a drop reuses the slot just freed. */
  lemma DropThenAllocate(a: Alloc, slot: nat, scope: BlockId)
    requires a.Valid() && a.slots.Has(slot)
    ensures var b := a.Dropped(slot);
      b.Valid() && b.Allocated(scope).Some? && b.Allocated(scope).value.0 == Value(slot, scope)
  {
    DropSound(a, slot);
    var b := a.Dropped(slot);
    AllocateSound(b, scope);
    SlabLenBound(a.slots);
  }

  lemma {:induction false} DistinctBelow(s: seq<nat>, n: nat)
    requires forall i :: 0 <= i < |s| ==> s[i] < n
    requires forall i, j :: 0 <= i < j < |s| ==> s[i] != s[j]
    ensures |s| <= n
    decreases n
  {
    if s != [] {
      assert s[0] < n;
      if exists i :: 0 <= i < |s| && s[i] == n - 1 {
        var i :| 0 <= i < |s| && s[i] == n - 1;
        DistinctBelow(s[..i] + s[i + 1..], n - 1);
      } else {
        DistinctBelow(s, n - 1);
      }
    }
  }

  /** The number of values in a slab is at most the number of its entries. */
  lemma SlabLenBound<T>(s: Slab<T>)
    requires s.Valid()
    ensures 0 <= s.Len() <= |s.entries|
  {
    DistinctBelow(s.vacant, |s.entries|);
  }

  lemma {:induction false} DropAllKeepsTrack(a: Alloc, values: seq<Value>)
    requires a.Valid() && a.NoLeak() && Droppable(a, values)
    ensures DropAll(a, values).NoLeak()
  {
    hide Slab.Valid, Slab.Has, Slab.Get, Alloc.Valid, Alloc.NoLeak;
    if values != [] {
      var init, last := values[..|values| - 1], values[|values| - 1];
      DropAllKeepsTrack(a, init);
      AllocatorKeepsTrack(DropAll(a, init), last.scope, last.slot);
    }
  }

  // ----- the allocator -----

  class Allocator {
    var slots: Slab<Location>
    var registers: Slab<()>
    var stackSlots: Slab<()>
    var stackSize: nat
    const regs: nat

    function View(): Alloc
      reads this
    {
      Alloc(slots, registers, stackSlots, stackSize, regs)
    }

    /** Fills the register slab and empties it from the top, so that registers come out in order. */
    constructor (regs: nat)
      requires regs <= U16_MAX
      ensures View().Valid() && View().regs == regs && stackSize == 0
      ensures slots == Empty() && stackSlots == Empty() && View().NoLeak()
      ensures |registers.vacant| == regs && forall i :: 0 <= i < regs ==> registers.vacant[i] == i
    {
      var pool := RegisterPool(regs);
      this.regs := regs;
      registers := pool;
      slots := Empty();
      stackSlots := Empty();
      stackSize := 0;
    }

    static method RegisterPool(regs: nat) returns (pool: Slab<()>)
      ensures pool.Valid() && |pool.entries| == regs && |pool.vacant| == regs
      ensures forall i :: 0 <= i < regs ==> pool.vacant[i] == i
      ensures forall k :: !pool.Has(k)
    {
      pool := Empty<()>();
      for i := 0 to regs
        invariant pool.entries == seq(i, _ => Some(())) && pool.vacant == []
      {
        pool := pool.Insert(());
      }
      assert pool.Valid();
      for i := regs downto 0
        invariant pool.Valid()
        invariant |pool.entries| == regs && |pool.vacant| == regs - i
        invariant forall k :: 0 <= k < i ==> pool.entries[k].Some?
        invariant forall k :: 0 <= k < |pool.vacant| ==> pool.vacant[k] == i + k
      {
        pool := pool.Remove(i);
      }
      forall k: nat ensures !pool.Has(k) {
        if k < regs {
          assert pool.vacant[k] == k;
        }
      }
    }

    function LocationOf(value: Value): Location
      requires slots.Has(value.slot)
      reads this
    {
      slots.Get(value.slot)
    }

    method Drop(value: Value)
      requires View().Valid() && slots.Has(value.slot)
      modifies this
      ensures View() == old(View()).Dropped(value.slot) && View().Valid()
    {
      DropSound(View(), value.slot);
      var location := slots.Get(value.slot);
      slots := slots.Remove(value.slot);
      match location
      case Register(reg) => registers := registers.Remove(reg);
      case Stack(slot) => stackSlots := stackSlots.Remove(slot);
    }

    method Allocate(scope: BlockId) returns (r: Option<Value>)
      requires View().Valid()
      modifies this
      ensures View().Valid()
      ensures match old(View()).Allocated(scope)
              case None => r == None && View() == old(View())
              case Some(p) => r == Some(p.0) && View() == p.1
    {
      hide Slab.Valid, Slab.Has, Slab.Get, Slab.Insert;
      ghost var before := View();
      AllocateSound(before, scope);
      if slots.Len() >= U16_MAX {
        return None;
      }
      var location;
      if registers.Len() < regs {
        var key := registers.NextKey();
        registers := registers.Insert(());
        location := Register(key % 0x1_0000);
      } else {
        var slot := stackSlots.NextKey();
        stackSlots := stackSlots.Insert(());
        if slot > U16_MAX {
          return None;
        }
        stackSize := if slot + 1 > stackSize then slot + 1 else stackSize;
        location := Stack(slot);
      }
      var key := slots.NextKey();
      slots := slots.Insert(location);
      assert View() == before.Allocated(scope).value.1;
      return Some(Value(key % 0x1_0000, scope));
    }
  }
}
