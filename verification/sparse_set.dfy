/**
 * The stable-handle entity store (src/Utilities/SparseSet.h): a slot map made of
 * a dense value array, a dense-to-id array, a sparse id-to-slot array and a LIFO
 * free list of dead ids.  Removal moves the last dense element into the freed
 * slot and pops, so values move between slots while every live id keeps its value.
 */
module SparseSets {

  /** A handle issued by the store (`uint32_t` in the source). */
  type Id = nat

  /** One entry of the sparse array: the dense slot of a live id, or the `kInvalid` marker. */
  datatype Slot = Invalid | At(index: nat)

  /**
   * The sequence left by swap-with-last erase of position `i`: the last element
   * is moved into `i`, then the tail is popped.
   */
  function SwapRemove<X>(s: seq<X>, i: nat): (r: seq<X>)
    requires i < |s|
    ensures |r| == |s| - 1
    ensures forall j :: 0 <= j < |r| ==> r[j] == (if j == i then s[|s| - 1] else s[j])
  {
    if i == |s| - 1 then s[..i] else s[..|s| - 1][i := s[|s| - 1]]
  }

  /** What the source's conditional move followed by `pop_back` leaves is `SwapRemove`. */
  lemma SwapRemoveShape<X>(s: seq<X>, i: nat, r: seq<X>)
    requires i < |s|
    requires r == (if i != |s| - 1 then s[i := s[|s| - 1]] else s)[..|s| - 1]
    ensures r == SwapRemove(s, i)
  {
  }

  /** The structural invariant tying the four vectors together. */
  ghost predicate Consistent<T>(dense: seq<T>, denseToId: seq<Id>, sparse: seq<Slot>, freeIds: seq<Id>)
  {
    |dense| == |denseToId|
    // every dense slot is owned by an id whose sparse entry points back at it
    && (forall i :: 0 <= i < |denseToId| ==> denseToId[i] < |sparse| && sparse[denseToId[i]] == At(i))
    // every live id points at a dense slot that records that id
    && (forall id :: 0 <= id < |sparse| && sparse[id].At? ==>
          sparse[id].index < |denseToId| && denseToId[sparse[id].index] == id)
    // the free list holds exactly the dead ids below the high-water mark, each once
    && (forall k :: 0 <= k < |freeIds| ==> freeIds[k] < |sparse| && sparse[freeIds[k]] == Invalid)
    && (forall id :: 0 <= id < |sparse| && sparse[id] == Invalid ==> id in freeIds)
    && (forall k, l :: 0 <= k < l < |freeIds| ==> freeIds[k] != freeIds[l])
  }

  /** The live ids with their values, read off the sparse and dense arrays. */
  function Live<T>(dense: seq<T>, sparse: seq<Slot>): map<Id, T>
    requires forall id :: 0 <= id < |sparse| && sparse[id].At? ==> sparse[id].index < |dense|
  {
    map id | 0 <= id < |sparse| && sparse[id].At? :: dense[sparse[id].index]
  }

  /** Swap-with-last erase of a live id removes exactly that id from the live map. */
  lemma RemoveKeepsOthers<T>(dense: seq<T>, denseToId: seq<Id>, sparse: seq<Slot>, freeIds: seq<Id>, id: Id)
    requires Consistent(dense, denseToId, sparse, freeIds)
    requires id < |sparse| && sparse[id].At?
    ensures var ri := sparse[id].index;
            var s2 := sparse[denseToId[|denseToId| - 1] := At(ri)][id := Invalid];
            var d2 := SwapRemove(dense, ri);
            (forall x :: 0 <= x < |s2| && s2[x].At? ==> s2[x].index < |d2|)
            && Live(d2, s2) == Live(dense, sparse) - {id}
  {
    var ri := sparse[id].index;
    var last := |denseToId| - 1;
    var moved := denseToId[last];
    RemoveKeepsConsistent(dense, denseToId, sparse, freeIds, id);
    var s2 := sparse[moved := At(ri)][id := Invalid];
    var d2 := SwapRemove(dense, ri);
    forall x | x in Live(dense, sparse) && x != id
      ensures x in Live(d2, s2) && Live(d2, s2)[x] == Live(dense, sparse)[x]
    {
      if x != moved {
        assert sparse[x].index != last;
      }
    }
  }

  /** No two dense slots are owned by the same id, so no two live values share an id. */
  lemma IdsDistinct<T>(dense: seq<T>, denseToId: seq<Id>, sparse: seq<Slot>, freeIds: seq<Id>)
    requires Consistent(dense, denseToId, sparse, freeIds)
    ensures forall i, j :: 0 <= i < j < |denseToId| ==> denseToId[i] != denseToId[j]
  {
    forall i, j | 0 <= i < j < |denseToId|
      ensures denseToId[i] != denseToId[j]
    {
      assert sparse[denseToId[i]] == At(i) && sparse[denseToId[j]] == At(j);
    }
  }

  function Elements(s: seq<Id>): set<Id>
  {
    set x | x in s
  }

  /** A sequence without repetitions has as many distinct elements as entries. */
  lemma {:induction false} DistinctCardinality(s: seq<Id>)
    requires forall i, j :: 0 <= i < j < |s| ==> s[i] != s[j]
    ensures |Elements(s)| == |s|
  {
    if s != [] {
      var t := s[..|s| - 1];
      var last := s[|s| - 1];
      assert s == t + [last];
      DistinctCardinality(t);
      assert Elements(s) == Elements(t) + {last};
      assert last !in Elements(t) by {
        forall k | 0 <= k < |t| ensures t[k] != last {
          assert t[k] == s[k];
        }
      }
    }
  }

  /** Swap-with-last erase of a live id, with the id pushed on the free list, keeps the invariant. */
  lemma RemoveKeepsConsistent<T>(dense: seq<T>, denseToId: seq<Id>, sparse: seq<Slot>, freeIds: seq<Id>, id: Id)
    requires Consistent(dense, denseToId, sparse, freeIds)
    requires id < |sparse| && sparse[id].At?
    ensures var ri := sparse[id].index;
            Consistent(SwapRemove(dense, ri), SwapRemove(denseToId, ri),
                       sparse[denseToId[|denseToId| - 1] := At(ri)][id := Invalid], freeIds + [id])
  {
    var ri := sparse[id].index;
    var last := |denseToId| - 1;
    var moved := denseToId[last];
    var d2 := SwapRemove(denseToId, ri);
    var s2 := sparse[moved := At(ri)][id := Invalid];
    var f2 := freeIds + [id];
    IdsDistinct(dense, denseToId, sparse, freeIds);
    forall i | 0 <= i < |d2| ensures d2[i] < |s2| && s2[d2[i]] == At(i) {
      if i == ri {
        assert d2[i] == moved && moved != id;
      } else {
        assert d2[i] == denseToId[i] && denseToId[i] != id && denseToId[i] != moved;
      }
    }
    forall x | 0 <= x < |s2| && s2[x].At? ensures s2[x].index < |d2| && d2[s2[x].index] == x {
      if x != moved {
        assert sparse[x].At? && sparse[x].index != last && sparse[x].index != ri;
      }
    }
    forall k | 0 <= k < |f2| ensures f2[k] < |s2| && s2[f2[k]] == Invalid {
      if k < |freeIds| {
        assert sparse[freeIds[k]] == Invalid && freeIds[k] != moved;
      }
    }
    forall x | 0 <= x < |s2| && s2[x] == Invalid ensures x in f2 {
      if x != id {
        assert sparse[x] == Invalid;
        assert x in freeIds;
      }
    }
    assert id !in freeIds;
  }

  /** The id an insertion allocates: the top of the free list, else a new id one past the sparse array. */
  ghost predicate Allocated(sparse: seq<Slot>, freeIds: seq<Id>, id: Id, sparse1: seq<Slot>, freeIds1: seq<Id>)
  {
    if freeIds != []
    then id == freeIds[|freeIds| - 1] && sparse1 == sparse && freeIds1 == freeIds[..|freeIds| - 1]
    else id == |sparse| && sparse1 == sparse + [Invalid] && freeIds1 == []
  }

  /** An allocated id is dead, is no longer on the free list, and every other dead id still is. */
  lemma AllocatedIsDead<T>(dense: seq<T>, denseToId: seq<Id>, sparse: seq<Slot>, freeIds: seq<Id>,
                           id: Id, sparse1: seq<Slot>, freeIds1: seq<Id>)
    requires Consistent(dense, denseToId, sparse, freeIds)
    requires Allocated(sparse, freeIds, id, sparse1, freeIds1)
    ensures id < |sparse1| && sparse1[id] == Invalid && id !in freeIds1
    ensures |sparse1| >= |sparse| && sparse1[..|sparse|] == sparse
    ensures forall x :: 0 <= x < |sparse1| && sparse1[x] == Invalid && x != id ==> x in freeIds1
    ensures forall k :: 0 <= k < |freeIds1| ==> freeIds1[k] == freeIds[k]
    ensures forall k, l :: 0 <= k < l < |freeIds1| ==> freeIds1[k] != freeIds1[l]
  {
    if freeIds != [] {
      forall x | 0 <= x < |sparse1| && sparse1[x] == Invalid && x != id ensures x in freeIds1 {
        assert x in freeIds;
        var k :| 0 <= k < |freeIds| && freeIds[k] == x;
        assert k < |freeIds1|;
        assert freeIds1[k] == x;
      }
    } else {
      forall x | 0 <= x < |sparse1| && sparse1[x] == Invalid && x != id ensures x in freeIds1 {
        assert sparse[x] == Invalid && x in freeIds;
      }
    }
  }

  /** Appending a value for the allocated id keeps the invariant. */
  lemma AppendConsistent<T>(dense: seq<T>, denseToId: seq<Id>, sparse: seq<Slot>, freeIds: seq<Id>,
                                 id: Id, sparse1: seq<Slot>, freeIds1: seq<Id>, value: T)
    requires Consistent(dense, denseToId, sparse, freeIds)
    requires Allocated(sparse, freeIds, id, sparse1, freeIds1)
    ensures Consistent(dense + [value], denseToId + [id], sparse1[id := At(|dense|)], freeIds1)
  {
    AllocatedIsDead(dense, denseToId, sparse, freeIds, id, sparse1, freeIds1);
    var i2, s2 := denseToId + [id], sparse1[id := At(|dense|)];
    forall i | 0 <= i < |i2| ensures i2[i] < |s2| && s2[i2[i]] == At(i) {
      if i < |denseToId| {
        assert sparse[denseToId[i]] == At(i) && sparse1[denseToId[i]] == At(i);
      }
    }
    forall x | 0 <= x < |s2| && s2[x].At? ensures s2[x].index < |i2| && i2[s2[x].index] == x {
      if x != id {
        assert x < |sparse| && sparse1[x] == sparse[x];
      }
    }
    forall k | 0 <= k < |freeIds1| ensures freeIds1[k] < |s2| && s2[freeIds1[k]] == Invalid {
      assert freeIds1[k] == freeIds[k] && sparse1[freeIds[k]] == sparse[freeIds[k]];
    }
  }

  /** Appending a value for the allocated id keeps the invariant and adds exactly that id to the live map. */
  lemma AppendKeepsConsistent<T>(dense: seq<T>, denseToId: seq<Id>, sparse: seq<Slot>, freeIds: seq<Id>,
                                 id: Id, sparse1: seq<Slot>, freeIds1: seq<Id>, value: T)
    requires Consistent(dense, denseToId, sparse, freeIds)
    requires Allocated(sparse, freeIds, id, sparse1, freeIds1)
    ensures Consistent(dense + [value], denseToId + [id], sparse1[id := At(|dense|)], freeIds1)
    ensures Live(dense + [value], sparse1[id := At(|dense|)]) == Live(dense, sparse)[id := value]
  {
    AppendConsistent(dense, denseToId, sparse, freeIds, id, sparse1, freeIds1, value);
    AppendAddsLive(dense, denseToId, sparse, freeIds, id, sparse1, freeIds1, value);
  }

  /** Appending a value for the allocated id adds exactly that id, with that value, to the live map. */
  lemma AppendAddsLive<T>(dense: seq<T>, denseToId: seq<Id>, sparse: seq<Slot>, freeIds: seq<Id>,
                          id: Id, sparse1: seq<Slot>, freeIds1: seq<Id>, value: T)
    requires Consistent(dense, denseToId, sparse, freeIds)
    requires Allocated(sparse, freeIds, id, sparse1, freeIds1)
    requires Consistent(dense + [value], denseToId + [id], sparse1[id := At(|dense|)], freeIds1)
    ensures Live(dense + [value], sparse1[id := At(|dense|)]) == Live(dense, sparse)[id := value]
  {
    AllocatedIsDead(dense, denseToId, sparse, freeIds, id, sparse1, freeIds1);
    var d2, s2 := dense + [value], sparse1[id := At(|dense|)];
    forall x | x in Live(dense, sparse) ensures x in Live(d2, s2) && Live(d2, s2)[x] == Live(dense, sparse)[x] {
      assert sparse1[x] == sparse[x] && x != id;
    }
  }

  class SparseSet<T> {
    var dense: seq<T>
    var denseToId: seq<Id>
    var sparse: seq<Slot>
    var freeIds: seq<Id>

    ghost predicate Valid()
      reads this
    {
      Consistent(dense, denseToId, sparse, freeIds)
    }

    constructor()
      ensures Valid() && Contents() == map[]
      ensures dense == [] && denseToId == [] && sparse == [] && freeIds == []
    {
      dense, denseToId, sparse, freeIds := [], [], [], [];
    }

    /** The abstract value of the store: every live id with its value. */
    function Contents(): map<Id, T>
      reads this
      requires Valid()
    {
      Live(dense, sparse)
    }

    /** The id the next insertion receives: the most recently freed one, else a fresh one. */
    ghost function NextId(): (id: Id)
      reads this
      ensures Valid() ==> id !in Contents()
    {
      if freeIds != [] then freeIds[|freeIds| - 1] else |sparse|
    }

    function Contains(id: Id): (b: bool)
      reads this
      ensures Valid() ==> (b <==> id in Contents())
    {
      id < |sparse| && sparse[id] != Invalid
    }

    function Get(id: Id): (v: T)
      reads this
      requires Valid() && Contains(id)
      ensures v == Contents()[id]
      ensures v in Dense()
    {
      assert dense[sparse[id].index] == Dense()[sparse[id].index];
      dense[sparse[id].index]
    }

    /** `Get(std::span<const Id>)`: the values of the given ids, in the order given. */
    method GetMany(ids: seq<Id>) returns (values: seq<T>)
      requires Valid()
      requires forall i :: 0 <= i < |ids| ==> ids[i] in Contents()
      ensures |values| == |ids|
      ensures forall i :: 0 <= i < |ids| ==> values[i] == Contents()[ids[i]]
    {
      values := [];
      for i := 0 to |ids|
        invariant |values| == i
        invariant forall j :: 0 <= j < i ==> values[j] == Contents()[ids[j]]
      {
        values := values + [dense[sparse[ids[i]].index]];
      }
    }

    function DenseIndex(id: Id): (i: nat)
      reads this
      requires Valid() && Contains(id)
      ensures i < DenseCount() && Dense()[i] == Contents()[id]
      ensures denseToId[i] == id
    {
      sparse[id].index
    }

    /** The number of live values. */
    function DenseCount(): (n: nat)
      reads this
      requires Valid()
      ensures n == |Contents()|
    {
      LiveCount();
      |dense|
    }

    /** The packed values, one per live id, in slot order (not insertion order). */
    function Dense(): (s: seq<T>)
      reads this
      requires Valid()
      ensures |s| == |denseToId|
      ensures forall i :: 0 <= i < |s| ==> denseToId[i] in Contents() && s[i] == Contents()[denseToId[i]]
    {
      dense
    }

    /** The dense slot of every live id (what `DenseIndex` answers). */
    function Slots(): (m: map<Id, nat>)
      reads this
      requires Valid()
      ensures m.Keys == Contents().Keys
      ensures forall id :: id in m ==> m[id] < |dense| && dense[m[id]] == Contents()[id]
    {
      map id | 0 <= id < |sparse| && sparse[id].At? :: sparse[id].index
    }

    /** The dense array holds exactly one value per live id. */
    lemma LiveCount()
      requires Valid()
      ensures |Contents()| == |dense|
    {
      IdsDistinct(dense, denseToId, sparse, freeIds);
      DistinctCardinality(denseToId);
      var keys := Contents().Keys;
      assert keys == Elements(denseToId) by {
        forall id | id in keys ensures id in denseToId {
          assert denseToId[sparse[id].index] == id;
        }
        forall id | id in denseToId ensures id in keys {
          var i :| 0 <= i < |denseToId| && denseToId[i] == id;
          assert sparse[id] == At(i);
        }
      }
    }

    /** Insertion: the full new state after `Emplace(value)` returned `id`. */
    twostate predicate Emplaced(id: Id, value: T)
      reads this
    {
      old(Valid()) && Valid()
      && id == old(NextId()) && id !in old(Contents())
      && Contents() == old(Contents())[id := value]
      && dense == old(dense) + [value]
      && denseToId == old(denseToId) + [id]
      && (if old(freeIds) == []
          then sparse == old(sparse) + [At(|old(dense)|)] && freeIds == []
          else sparse == old(sparse)[id := At(|old(dense)|)] && freeIds == old(freeIds)[..|old(freeIds)| - 1])
    }

    /** Removal: the full new state after `Remove(id)`. */
    twostate predicate Erased(id: Id)
      reads this
    {
      old(Valid()) && old(Contains(id)) && Valid()
      && Contents() == old(Contents()) - {id}
      && NextId() == id
      && dense == SwapRemove(old(dense), old(sparse[id].index))
      && denseToId == SwapRemove(old(denseToId), old(sparse[id].index))
      && sparse == old(sparse)[old(denseToId[|denseToId| - 1]) := At(old(sparse[id].index))][id := Invalid]
      && freeIds == old(freeIds) + [id]
    }

    /** Overwrite in place: the full new state after assigning through `Get(id)`. */
    twostate predicate Overwritten(id: Id, value: T)
      reads this
    {
      old(Valid()) && old(Contains(id)) && Valid()
      && Contents() == old(Contents())[id := value]
      && dense == old(dense)[old(sparse[id].index) := value]
      && denseToId == old(denseToId) && sparse == old(sparse) && freeIds == old(freeIds)
    }

    /** Reuses the most recently freed id (LIFO); otherwise grows the sparse array by one. */
    method AllocateId() returns (id: Id)
      requires Valid()
      modifies this
      ensures id == old(NextId())
      ensures dense == old(dense) && denseToId == old(denseToId)
      ensures old(freeIds) != [] ==> freeIds == old(freeIds)[..|old(freeIds)| - 1] && sparse == old(sparse)
      ensures old(freeIds) == [] ==> freeIds == [] && id == old(|sparse|) && sparse == old(sparse) + [Invalid]
      ensures id < |sparse| && sparse[id] == Invalid && id !in freeIds
    {
      if freeIds != [] {
        id := freeIds[|freeIds| - 1];
        freeIds := freeIds[..|freeIds| - 1];
        assert id !in freeIds by {
          assert forall k :: 0 <= k < |freeIds| ==> freeIds[k] == old(freeIds)[k];
        }
        return;
      }
      id := |sparse|;
      sparse := sparse + [Invalid];
    }

    method Emplace(value: T) returns (id: Id)
      requires Valid()
      modifies this
      ensures Emplaced(id, value)
    {
      id := AllocateId();
      var denseIndex := |dense|;
      AppendKeepsConsistent(dense, denseToId, old(sparse), old(freeIds), id, sparse, freeIds, value);
      dense := dense + [value];
      denseToId := denseToId + [id];
      sparse := sparse[id := At(denseIndex)];
    }

    method Insert(value: T) returns (id: Id)
      requires Valid()
      modifies this
      ensures Emplaced(id, value)
    {
      id := Emplace(value);
    }

    method Remove(id: Id)
      requires Valid() && Contains(id)
      modifies this
      ensures Erased(id)
    {
      var removeIndex := sparse[id].index;
      var lastIndex := |dense| - 1;
      ghost var d0, i0, s0, f0 := dense, denseToId, sparse, freeIds;
      if removeIndex != lastIndex {
        dense := dense[removeIndex := dense[lastIndex]];
        var movedId := denseToId[lastIndex];
        denseToId := denseToId[removeIndex := movedId];
        sparse := sparse[movedId := At(removeIndex)];
      }
      dense := dense[..lastIndex];
      denseToId := denseToId[..lastIndex];
      sparse := sparse[id := Invalid];
      freeIds := freeIds + [id];
      SwapRemoveShape(d0, removeIndex, dense);
      SwapRemoveShape(i0, removeIndex, denseToId);
      assert sparse == s0[i0[lastIndex] := At(removeIndex)][id := Invalid];
      RemoveKeepsConsistent(d0, i0, s0, f0, id);
      RemoveKeepsOthers(d0, i0, s0, f0, id);
    }

    /** Assignment through the mutable reference that `Get(id)` and `operator[]` return. */
    method Put(id: Id, value: T)
      requires Valid() && Contains(id)
      modifies this
      ensures Overwritten(id, value)
    {
      dense := dense[sparse[id].index := value];
    }
  }

  /**
   * The store that raises its owner's dirty flag on every mutating call.  The
   * source keeps a `bool&` to a flag owned by Model; here the flag lives in the
   * wrapper and Model reads and resets it there.
   */
  class DirtySparseSet<T> {
    const store: SparseSet<T>
    var dirty: bool

    ghost predicate Valid()
      reads this, store
    {
      store.Valid()
    }

    constructor(dirtyFlag: bool)
      ensures Valid() && fresh(store)
      ensures dirty == dirtyFlag && store.Contents() == map[] && store.dense == [] && store.freeIds == []
    {
      store := new SparseSet();
      dirty := dirtyFlag;
    }

    method Emplace(value: T) returns (id: Id)
      requires Valid()
      modifies this, store
      ensures Valid() && dirty && store.Emplaced(id, value)
    {
      dirty := true;
      id := store.Emplace(value);
    }

    method Insert(value: T) returns (id: Id)
      requires Valid()
      modifies this, store
      ensures Valid() && dirty && store.Emplaced(id, value)
    {
      dirty := true;
      id := store.Insert(value);
    }

    method Remove(id: Id)
      requires Valid() && store.Contains(id)
      modifies this, store
      ensures Valid() && dirty && store.Erased(id)
    {
      dirty := true;
      store.Remove(id);
    }

    /** Assignment through the forwarded mutable `Get(id)`: the flag is left as it was. */
    method Put(id: Id, value: T)
      requires Valid() && store.Contains(id)
      modifies store
      ensures Valid() && store.Overwritten(id, value)
    {
      store.Put(id, value);
    }
  }

  /** A fresh store after inserting `first` and then `second`: ids 0 and 1, in dense slots 0 and 1. */
  method InsertTwo<T>(first: T, second: T) returns (store: SparseSet<T>)
    ensures fresh(store) && store.Valid() && store.Contents() == map[0 := first][1 := second]
    ensures store.dense == [first, second] && store.denseToId == [0, 1]
    ensures store.freeIds == []
  {
    store := new SparseSet<T>();
    var a := store.Insert(first);
    assert a == 0 && store.freeIds == [];
    var b := store.Insert(second);
  }

  /** The same store after removing id 0: the last value moves into the freed slot. */
  method InsertTwoRemoveFirst<T>(first: T, second: T) returns (store: SparseSet<T>)
    ensures fresh(store) && store.Valid() && store.Contents() == map[1 := second]
    ensures store.dense == [second] && store.freeIds == [0] && store.NextId() == 0
  {
    store := InsertTwo(first, second);
    store.Remove(0);
    assert store.Contents() == map[1 := second];
  }

  /**
   * Inserting `a`, inserting `b`, removing `a` and inserting `a` again leaves
   * `b` in dense slot 0 and `a` in dense slot 1, while `a` holds id 0 again
   * (the freed id is reused, the dense array is swap-removed).
   */
  method RemoveReordersDense<T>(a: T, b: T) returns (store: SparseSet<T>)
    ensures store.Valid() && store.Contents() == map[0 := a, 1 := b]
    ensures store.Dense() == [b, a]
  {
    store := InsertTwoRemoveFirst(a, b);
    var id := store.Insert(a);
    assert id == 0 && store.dense == [b] + [a];
  }
}
