/** The table of lib/rpcserver/rcf_pch_mem.c, which gives out identifiers for pointers: a growing array of
    nodes that is searched round-robin, with the safe (default) method of allocation. */
module PointerIds {
  import opened Wrappers

  const INITIAL_SIZE_OF_ARRAY := 128
  const MULTIPLIER_OF_ARRAY_SIZE := 2
  const INDEX_LIMIT := 0x100_0000
  const NS_LIMIT := 0x100
  const WORD := 0x1_0000_0000
  const NS_INVALID := 0xFFFF_FFFF

  /** RPC_PTR_ID_MAKE, in 32 bits. */
  function Make(ns: nat, index: nat): nat {
    (ns * INDEX_LIMIT + index % INDEX_LIMIT + 1) % WORD
  }

  /** RPC_PTR_ID_GET_INDEX and RPC_PTR_ID_GET_NS, in 32 bits. */
  function GetIndex(id: nat): nat {
    (id - 1) % WORD % INDEX_LIMIT
  }

  function GetNs(id: nat): nat {
    (id - 1) % WORD / INDEX_LIMIT
  }

  /** An identifier leads back to its namespace and index, and only the very last one looks like the
      null pointer. */
  lemma MakeIsReadBack(ns: nat, index: nat)
    requires ns < NS_LIMIT && index < INDEX_LIMIT
    ensures GetNs(Make(ns, index)) == ns && GetIndex(Make(ns, index)) == index
    ensures Make(ns, index) == 0 <==> ns == NS_LIMIT - 1 && index == INDEX_LIMIT - 1
  {
    assert (ns * INDEX_LIMIT + index) / INDEX_LIMIT == ns && (ns * INDEX_LIMIT + index) % INDEX_LIMIT == index;
  }

  lemma IdIsMadeOfItsParts(id: nat)
    requires 0 < id < WORD
    ensures GetNs(id) < NS_LIMIT && GetIndex(id) < INDEX_LIMIT && Make(GetNs(id), GetIndex(id)) == id
  {
    var m := id - 1;
    assert m % WORD == m && m / INDEX_LIMIT * INDEX_LIMIT + m % INDEX_LIMIT == m;
  }

  /** A null `memory` is 0. */
  datatype Node = Node(ns: nat, memory: nat, used: bool)

  const UNUSED := Node(0, 0, false)

  /** The pointer which an identifier stands for. */
  function Lookup(ids: seq<Node>, id: nat): Option<nat> {
    if id != 0 && Holds(ids, GetIndex(id), GetNs(id)) then Some(ids[GetIndex(id)].memory) else None
  }

  predicate Holds(ids: seq<Node>, index: nat, ns: nat) {
    index < |ids| && ids[index].used && ids[index].ns == ns
  }

  function UsedCount(ids: seq<Node>, n: nat): (c: nat)
    requires n <= |ids|
    ensures c <= n
  {
    if n == 0 then 0 else UsedCount(ids, n - 1) + (if ids[n - 1].used then 1 else 0)
  }

  lemma {:induction false} FewUsed(ids: seq<Node>, n: nat) returns (i: nat)
    requires n <= |ids| && UsedCount(ids, n) < n
    ensures i < n && !ids[i].used
  {
    if ids[n - 1].used {
      i := FewUsed(ids, n - 1);
    } else {
      i := n - 1;
    }
  }

  lemma {:induction false} CountOfChange(ids: seq<Node>, index: nat, x: Node, n: nat)
    requires index < |ids| && n <= |ids|
    ensures UsedCount(ids[index := x], n) + (if index < n && ids[index].used then 1 else 0)
         == UsedCount(ids, n) + (if index < n && x.used then 1 else 0)
  {
    if n > 0 {
      CountOfChange(ids, index, x, n - 1);
    }
  }

  lemma {:induction false} CountOfGrowth(ids: seq<Node>, more: nat, n: nat)
    requires n <= |ids| + more
    ensures UsedCount(ids + seq(more, _ => UNUSED), n) == UsedCount(ids, if n < |ids| then n else |ids|)
  {
    if n > 0 {
      CountOfGrowth(ids, more, n - 1);
    }
  }

  /** Position `j` comes before `i` when one goes round from `from` on. */
  predicate Between(from: nat, i: nat, j: nat) {
    if from <= i then from <= j < i else j >= from || j < i
  }

  class Table {
    var ids: seq<Node>
    var idsUsed: nat
    var nextFree: nat

    ghost predicate Valid()
      reads this
    {
      && |ids| <= INDEX_LIMIT && idsUsed == UsedCount(ids, |ids|) && (ids == [] ==> nextFree == 0)
      && (ids != [] ==> nextFree < |ids|)
      && (forall i :: 0 <= i < |ids| && ids[i].used ==> ids[i].memory != 0 && ids[i].ns < NS_LIMIT)
    }

    /** The table can take one more pointer; `granted` tells whether realloc() succeeds. */
    predicate HasRoom(granted: bool)
      reads this
    {
      idsUsed < |ids| || (granted && Grown() <= INDEX_LIMIT)
    }

    function Grown(): nat
      reads this
    {
      if |ids| == 0 then INITIAL_SIZE_OF_ARRAY else |ids| * MULTIPLIER_OF_ARRAY_SIZE
    }

    constructor ()
      ensures Valid() && ids == []
    {
      ids, idsUsed, nextFree := [], 0, 0;
    }

    /** search_id_index(): the first unused node from `nextFree` on, round the array. */
    method SearchIndex() returns (i: nat)
      requires Valid() && idsUsed < |ids|
      ensures i < |ids| && !ids[i].used
      ensures forall j :: 0 <= j < |ids| && Between(nextFree, i, j) ==> ids[j].used
    {
      i := nextFree;
      while i < |ids|
        invariant nextFree <= i <= |ids|
        invariant forall j :: nextFree <= j < i ==> ids[j].used
      {
        if !ids[i].used {
          return;
        }
        i := i + 1;
      }
      i := 0;
      while i < nextFree
        invariant 0 <= i <= nextFree
        invariant forall j :: 0 <= j < i ==> ids[j].used
      {
        if !ids[i].used {
          return;
        }
        i := i + 1;
      }
      ghost var k := FewUsed(ids, |ids|);
      assert false;
    }

    /** take_index() with reallocate_memory() */
    method TakeIndex(granted: bool) returns (index: Option<nat>)
      requires Valid()
      modifies this
      ensures Valid() && idsUsed == old(idsUsed) && index.Some? == old(HasRoom(granted))
      ensures old(ids) <= ids && forall i :: |old(ids)| <= i < |ids| ==> !ids[i].used
      ensures index.Some? ==> index.value < |ids| && !ids[index.value].used
      ensures |ids| == if old(idsUsed) == |old(ids)| && index.Some? then old(Grown()) else |old(ids)|
      ensures nextFree == if index.Some? then (index.value + 1) % |ids| else old(nextFree)
      ensures index.Some? && old(idsUsed) < |old(ids)| ==>
                forall j :: 0 <= j < |ids| && Between(old(nextFree), index.value, j) ==> ids[j].used
    {
      var i := |ids|;
      if idsUsed < |ids| {
        i := SearchIndex();
      } else {
        if Grown() > INDEX_LIMIT || !granted {
          return None;
        }
        CountOfGrowth(ids, Grown() - |ids|, Grown());
        ids := ids + seq(Grown() - |ids|, _ => UNUSED);
      }
      nextFree := (i + 1) % |ids|;
      index := Some(i);
    }

    /** rcf_pch_mem_index_alloc(): an identifier which stood for nothing stands for the pointer, and
        all others stand for what they did. */
    method Alloc(mem: nat, ns: nat, granted: bool) returns (id: nat)
      requires Valid() && ns < NS_LIMIT
      modifies this
      ensures Valid() && id < WORD
      ensures id == 0 ==> forall x :: 0 < x < WORD ==> Lookup(ids, x) == Lookup(old(ids), x)
      ensures id != 0 ==> Lookup(old(ids), id) == None && Lookup(ids, id) == Some(mem) && GetNs(id) == ns
      ensures id != 0 ==> forall x :: 0 < x < WORD && x != id ==> Lookup(ids, x) == Lookup(old(ids), x)
      ensures ns < NS_LIMIT - 1 ==> (id != 0 <==> mem != 0 && old(HasRoom(granted)))
    {
      if mem == 0 {
        return 0;
      }
      var index := TakeIndex(granted);
      if index.None? {
        return 0;
      }
      ghost var before := ids;
      CountOfChange(ids, index.value, Node(ns, mem, true), |ids|);
      ids := ids[index.value := Node(ns, mem, true)];
      idsUsed := idsUsed + 1;
      id := Make(ns, index.value);
      MakeIsReadBack(ns, index.value);
      OthersStay(before, ids, index.value, ns);
    }

    /** rcf_pch_mem_index_free(): the identifier stands for nothing, all others for what they did. */
    method Free(id: nat, ns: nat) returns (ok: bool)
      requires Valid() && ns < NS_LIMIT && id < WORD
      modifies this
      ensures Valid() && ok == (id == 0 || (GetNs(id) == ns && Lookup(old(ids), id).Some?))
      ensures ok ==> Lookup(ids, id) == None
      ensures forall x :: 0 < x < WORD && (x != id || !ok) ==> Lookup(ids, x) == Lookup(old(ids), x)
    {
      if id == 0 {
        return true;
      }
      if GetNs(id) != ns {
        return false;
      }
      var index := GetIndex(id);
      if index >= |ids| || !(ids[index].used && ids[index].memory != 0 && ids[index].ns == ns) {
        return false;
      }
      ghost var before := ids;
      var x := Node(NS_INVALID, ids[index].memory, false);
      CountOfChange(ids, index, x, |ids|);
      ids := ids[index := x];
      idsUsed := idsUsed - 1;
      IdIsMadeOfItsParts(id);
      OthersStay(before, ids, index, ns);
      ok := true;
    }

    /** rcf_pch_mem_index_mem_to_ptr() */
    method Get(id: nat, ns: nat) returns (mem: nat)
      requires Valid() && id < WORD
      ensures mem == (if GetNs(id) == ns && Lookup(ids, id).Some? then Lookup(ids, id).value else 0)
      ensures mem != 0 <==> id != 0 && Holds(ids, GetIndex(id), ns) && GetNs(id) == ns
    {
      if id == 0 || GetNs(id) != ns {
        return 0;
      }
      var index := GetIndex(id);
      if index < |ids| && ids[index].used && ids[index].ns == ns {
        mem := ids[index].memory;
      } else {
        mem := 0;
      }
    }
  }

  /** A node is reached by one identifier of its namespace. */
  lemma OthersStay(ids: seq<Node>, ids': seq<Node>, index: nat, ns: nat)
    requires index < |ids| == |ids'| && index < INDEX_LIMIT && ns < NS_LIMIT
    requires ids' == ids[index := ids'[index]]
    requires (ids[index].used ==> ids[index].ns == ns) && (ids'[index].used ==> ids'[index].ns == ns)
    ensures forall x :: 0 < x < WORD && x != Make(ns, index) ==> Lookup(ids', x) == Lookup(ids, x)
  {
    forall x | 0 < x < WORD && x != Make(ns, index)
      ensures Lookup(ids', x) == Lookup(ids, x)
    {
      IdIsMadeOfItsParts(x);
    }
  }
}
