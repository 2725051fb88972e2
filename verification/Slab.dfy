/** The slab that hands out slot numbers: a vector of entries with a LIFO list of vacant keys. */
module Slabs {
  import opened Wrappers

  datatype Slab<T> = Slab(entries: seq<Option<T>>, vacant: seq<nat>) {

    /** `vacant` lists each key without a value exactly once. */
    ghost predicate Valid() {
      && (forall i :: 0 <= i < |vacant| ==> vacant[i] < |entries| && entries[vacant[i]].None?)
      && (forall i, j :: 0 <= i < j < |vacant| ==> vacant[i] != vacant[j])
      && (forall k :: 0 <= k < |entries| && entries[k].None? ==> k in vacant)
    }

    predicate Has(key: nat) {
      key < |entries| && entries[key].Some?
    }

    function Get(key: nat): T
      requires Has(key)
    {
      entries[key].value
    }

    function Len(): int {
      |entries| - |vacant|
    }

    /** The key that the next insertion uses: the one vacated last, or a new one. */
    function NextKey(): nat {
      if vacant == [] then |entries| else vacant[0]
    }

    function Insert(value: T): (r: Slab<T>)
      requires Valid()
      ensures r.Valid() && !Has(NextKey()) && r.Len() == Len() + 1
      ensures |r.entries| == if vacant == [] then |entries| + 1 else |entries|
      ensures NextKey() < |r.entries|
      ensures forall k :: r.Has(k) <==> Has(k) || k == NextKey()
      ensures r.Get(NextKey()) == value
      ensures forall k :: Has(k) ==> r.Get(k) == Get(k)
    {
      if vacant == [] then Slab(entries + [Some(value)], [])
      else
        var r := Slab(entries[vacant[0] := Some(value)], vacant[1..]);
        assert forall k :: 0 <= k < |r.entries| && r.entries[k].None? ==>
            k in vacant && k != vacant[0]
            && k in r.vacant;
        r
    }

    function Remove(key: nat): (r: Slab<T>)
      requires Valid() && Has(key)
      ensures r.Valid() && r.Len() == Len() - 1 && r.NextKey() == key && |r.entries| == |entries|
      ensures forall k :: r.Has(k) <==> Has(k) && k != key
      ensures forall k :: r.Has(k) ==> r.Get(k) == Get(k)
    {
      var r := Slab(entries[key := None], [key] + vacant);
      assert forall k :: k in vacant ==> k in r.vacant;
      assert key == r.vacant[0];
      r
    }
  }

  function Empty<T>(): (r: Slab<T>)
    ensures r.Valid() && r.Len() == 0
  {
    Slab([], [])
  }
}
