/** The calls of agents/win32/tarpc_wsa.c which use overlapped objects. */
module OverlappedCalls {
  import opened Overlapped

  /** Who frees a block: the object with an identifier, the reply with its vectors at an address, or
      nobody any more. */
  datatype Owner = ByObject(id: nat) | ByReply(val: nat) | Lost

  /** Everything there is: the memory, the objects by their identifiers, the replies which are not freed
      yet. The object of a call without overlapped I/O has the identifier 0 during that call. */
  datatype World = World(heap: Heap, objects: map<nat, Record>, replies: set<nat>, owner: map<nat, Owner>)

  predicate Present(w: World, x: Owner) {
    match x
    case ByObject(id) => id in w.objects
    case ByReply(val) => val in w.replies
    case Lost => true
  }

  predicate OwnedBy(w: World, p: nat, x: Owner) {
    p in w.owner && w.owner[p] == x
  }

  predicate Intact(w: World, x: Owner)
    requires Present(w, x)
  {
    match x
    case ByObject(id) => Sound(w.heap, w.objects[id])
    case ByReply(val) => ReplySound(w.heap, val)
    case Lost => true
  }

  function FootOf(w: World, x: Owner): set<nat> {
    if !Present(w, x) || !Intact(w, x) then {} else
    match x
    case ByObject(id) => Foot(w.heap, w.objects[id])
    case ByReply(val) => ReplyFoot(w.heap, val)
    case Lost => {}
  }

  /** The buffers which an object or a reply has. */
  function ContentOf(w: World, x: Owner): seq<Segment> {
    if !Present(w, x) || !Intact(w, x) then [] else
    match x
    case ByObject(id) => Data(w.heap, w.objects[id])
    case ByReply(val) => ReplyData(w.heap, val)
    case Lost => []
  }

  ghost predicate Owns(w: World, x: Owner)
    requires Present(w, x)
  {
    Intact(w, x) && forall p :: p in FootOf(w, x) ==> OwnedBy(w, p, x)
  }

  predicate Accounted(w: World, p: nat)
    requires p in w.owner
  {
    w.owner[p] == Lost || p in FootOf(w, w.owner[p])
  }

  /** Every block has exactly one owner, which has it in its buffers. */
  ghost predicate Inv(w: World) {
    && w.owner.Keys == w.heap.Keys
    && (forall x :: Present(w, x) ==> Owns(w, x))
    && (forall p :: p in w.owner ==> Accounted(w, p))
  }

  ghost predicate Untouched(w: World, w': World, x: Owner) {
    && (Present(w, x) <==> Present(w', x))
    && (x.ByObject? && Present(w, x) ==> w'.objects[x.id] == w.objects[x.id])
    && (forall p :: OwnedBy(w, p, x) <==> OwnedBy(w', p, x))
    && (forall p :: OwnedBy(w, p, x) ==> p in w.heap && p in w'.heap && w.heap[p] == w'.heap[p])
  }

  predicate Kept(w: World, w': World, x: Owner) {
    Present(w, x) ==> Present(w', x) && FootOf(w', x) == FootOf(w, x) && ContentOf(w', x) == ContentOf(w, x)
  }

  /** All owners but `xs` still have the blocks they had, with the same buffers. */
  ghost predicate KeptBut(w: World, w': World, xs: set<Owner>) {
    forall x :: x !in xs ==> Kept(w, w', x)
  }

  lemma UntouchedIsKept(w: World, w': World, x: Owner)
    requires Inv(w) && Untouched(w, w', x) && Present(w, x) && x != Lost
    ensures Owns(w', x) && FootOf(w', x) == FootOf(w, x) && ContentOf(w', x) == ContentOf(w, x)
  {
    assert Owns(w, x);
    forall p | p in FootOf(w, x)
      ensures p in w.heap && p in w'.heap && w.heap[p] == w'.heap[p] && OwnedBy(w', p, x)
    {
      assert OwnedBy(w, p, x);
    }
    if x.ByObject? {
      ObjectIsSame(w.heap, w'.heap, w.objects[x.id]);
    } else {
      ReplyIsSame(w.heap, w'.heap, x.val);
    }
  }

  /** A change for the owners `xs` keeps what all others have. */
  lemma ChangeKeepsOthers(w: World, w': World, xs: set<Owner>)
    requires Inv(w) && w'.owner.Keys == w'.heap.Keys
    requires forall x :: x !in xs && x != Lost ==> Untouched(w, w', x)
    requires forall x :: x in xs && Present(w', x) ==> Owns(w', x)
    requires forall p :: p in w'.owner && w'.owner[p] in xs ==> Accounted(w', p)
    ensures Inv(w') && KeptBut(w, w', xs)
  {
    forall x | Present(w', x)
      ensures Owns(w', x)
    {
      if x !in xs && x != Lost {
        assert Untouched(w, w', x);
        UntouchedIsKept(w, w', x);
      }
    }
    forall p | p in w'.owner
      ensures Accounted(w', p)
    {
      var x := w'.owner[p];
      if x !in xs && x != Lost {
        assert Untouched(w, w', x) && OwnedBy(w', p, x);
        assert OwnedBy(w, p, x);
        assert Accounted(w, p);
        UntouchedIsKept(w, w', x);
      }
    }
    forall x | x !in xs && Present(w, x)
      ensures Kept(w, w', x)
    {
      if x != Lost {
        assert Untouched(w, w', x);
        UntouchedIsKept(w, w', x);
      }
    }
  }

  /** An object or a reply has no block of another one. */
  lemma OwnersAreApart(w: World, x: Owner, y: Owner)
    requires Inv(w) && Present(w, x) && Present(w, y) && x != y
    ensures FootOf(w, x) !! FootOf(w, y)
  {
    forall p | p in FootOf(w, x)
      ensures p !in FootOf(w, y)
    {
      assert Owns(w, x) && Owns(w, y);
      assert OwnedBy(w, p, x);
    }
  }

  lemma OwnedByOne(w: World, p: nat, x: Owner, y: Owner)
    requires Inv(w) && OwnedBy(w, p, x) && x != y
    ensures p in w.heap && p !in FootOf(w, y)
  {
    if Present(w, y) {
      assert Owns(w, y);
    }
  }

  /** When all replies are freed and all objects have no buffers, only lost blocks are left. */
  lemma OnlyLostBlocksRemain(w: World, p: nat)
    requires Inv(w) && w.replies == {} && p in w.heap
    requires forall id :: id in w.objects ==> w.objects[id] == EMPTY
    ensures OwnedBy(w, p, Lost)
  {
    assert Accounted(w, p);
  }

  /** The object `id` has become `o` in the memory `h`. */
  ghost function WithObject(w: World, id: nat, h: Heap, o: Record): World
    requires Sound(h, o) && h.Keys <= w.owner.Keys + Foot(h, o)
  {
    World(h, w.objects[id := o], w.replies,
          map p | p in h :: if p in Foot(h, o) then ByObject(id) else w.owner[p])
  }

  /** One object frees, gets or fills its own buffers. */
  lemma ObjectChanges(w: World, id: nat, h: Heap, o: Record)
    requires Inv(w) && Sound(h, o)
    requires var rest := w.heap.Keys - FootOf(w, ByObject(id));
             h.Keys == rest + Foot(h, o) && Foot(h, o) !! rest && Same(w.heap, h, rest)
    ensures Inv(WithObject(w, id, h, o)) && KeptBut(w, WithObject(w, id, h, o), {ByObject(id)})
    ensures ContentOf(WithObject(w, id, h, o), ByObject(id)) == Data(h, o)
    ensures LostBlocks(WithObject(w, id, h, o)) == LostBlocks(w)
  {
    var w' := WithObject(w, id, h, o);
    var me := ByObject(id);
    assert Present(w, me) ==> Owns(w, me);
    assert Intact(w', me) && FootOf(w', me) == Foot(h, o);
    forall p | p in w.owner && w.owner[p] == me
      ensures p in FootOf(w, me)
    {
      assert Accounted(w, p);
    }
    forall x | x !in {me} && x != Lost
      ensures Untouched(w, w', x)
    {
      forall p | OwnedBy(w, p, x)
        ensures p in w.heap.Keys - FootOf(w, me)
      {
        OwnedByOne(w, p, x, me);
      }
    }
    ChangeKeepsOthers(w, w', {me});
    forall p | p in LostBlocks(w)
      ensures p in LostBlocks(w')
    {
      OwnedByOne(w, p, Lost, me);
    }
  }

  /** The buffers of object `id` have become the reply at `val`. */
  ghost function WithReply(w: World, id: nat, h: Heap, val: nat): World
    requires ReplySound(h, val) && h.Keys <= w.owner.Keys + ReplyFoot(h, val)
  {
    World(h, w.objects[id := EMPTY], w.replies + {val},
          map p | p in h :: if p in ReplyFoot(h, val) then ByReply(val) else w.owner[p])
  }

  lemma ReplyInHeap(w: World, val: nat)
    requires Inv(w) && val in w.replies
    ensures val in w.heap
  {
    assert Owns(w, ByReply(val));
    assert val in FootOf(w, ByReply(val));
  }

  lemma BuffersLeave(w: World, id: nat, h: Heap, val: nat)
    requires Inv(w) && id in w.objects && w.objects[id] != EMPTY && Sound(w.heap, w.objects[id])
    requires Moved(w.heap, w.objects[id], h, val)
    ensures Inv(WithReply(w, id, h, val)) && KeptBut(w, WithReply(w, id, h, val), {ByObject(id)})
    ensures val !in w.replies && ContentOf(WithReply(w, id, h, val), ByObject(id)) == []
    ensures ContentOf(WithReply(w, id, h, val), ByReply(val)) == ContentOf(w, ByObject(id))
    ensures LostBlocks(WithReply(w, id, h, val)) == LostBlocks(w)
  {
    var w' := WithReply(w, id, h, val);
    var me, reply := ByObject(id), ByReply(val);
    assert Owns(w, me);
    forall r | r in w.replies
      ensures r in w.heap
    {
      ReplyInHeap(w, r);
    }
    forall p | p in w.owner && w.owner[p] == me
      ensures p in FootOf(w, me)
    {
      assert Accounted(w, p);
    }
    forall x | x !in {me, reply} && x != Lost
      ensures Untouched(w, w', x)
    {
      forall p | OwnedBy(w, p, x)
        ensures p in w.heap.Keys - FootOf(w, me)
      {
        OwnedByOne(w, p, x, me);
      }
    }
    ChangeKeepsOthers(w, w', {me, reply});
    forall p | p in LostBlocks(w)
      ensures p in LostBlocks(w')
    {
      OwnedByOne(w, p, Lost, me);
    }
  }

  /** The object `id` goes away; its blocks, if any, are nobody's. */
  ghost function WithoutObject(w: World, id: nat): World {
    World(w.heap, w.objects - {id}, w.replies,
          map p | p in w.owner :: if w.owner[p] == ByObject(id) then Lost else w.owner[p])
  }

  lemma ObjectGoes(w: World, id: nat)
    requires Inv(w)
    ensures Inv(WithoutObject(w, id)) && KeptBut(w, WithoutObject(w, id), {ByObject(id)})
    ensures LostBlocks(WithoutObject(w, id)) == LostBlocks(w) + FootOf(w, ByObject(id))
  {
    var w' := WithoutObject(w, id);
    var me := ByObject(id);
    assert Present(w, me) ==> Owns(w, me);
    forall p | p in w.owner && w.owner[p] == me
      ensures p in FootOf(w, me)
    {
      assert Accounted(w, p);
    }
    forall x | x !in {me} && x != Lost
      ensures Untouched(w, w', x)
    {
    }
    ChangeKeepsOthers(w, w', {me});
    forall p | p in FootOf(w, me)
      ensures p in LostBlocks(w')
    {
      assert OwnedBy(w, p, me);
    }
  }

  /** The reply at `val` is freed. */
  ghost function WithoutReply(w: World, val: nat): World {
    var gone := FootOf(w, ByReply(val));
    World(Minus(w.heap, gone), w.objects, w.replies - {val}, w.owner - gone)
  }

  lemma ReplyGoes(w: World, val: nat)
    requires Inv(w)
    ensures Inv(WithoutReply(w, val)) && KeptBut(w, WithoutReply(w, val), {ByReply(val)})
    ensures LostBlocks(WithoutReply(w, val)) == LostBlocks(w)
  {
    var w' := WithoutReply(w, val);
    var me := ByReply(val);
    assert Present(w, me) ==> Owns(w, me);
    forall p | p in w.owner && w.owner[p] == me
      ensures p in FootOf(w, me)
    {
      assert Accounted(w, p);
    }
    forall x | x !in {me} && x != Lost
      ensures Untouched(w, w', x)
    {
      forall p | OwnedBy(w, p, x)
        ensures p in w.heap.Keys - FootOf(w, me)
      {
        OwnedByOne(w, p, x, me);
      }
    }
    ChangeKeepsOthers(w, w', {me});
    forall p | p in LostBlocks(w)
      ensures p in LostBlocks(w')
    {
      OwnedByOne(w, p, Lost, me);
    }
  }

  ghost function LostBlocks(w: World): set<nat> {
    set p | p in w.owner && w.owner[p] == Lost
  }

  /** The error which a call takes note of: none if Winsock succeeded. */
  function WsaError(retval: int, err: int): int {
    if retval != 0 then err else 0
  }

  /** A buffer which was made for a vector and then got data. */
  predicate Arrived(x: Segment, v: Input, data: seq<byte>)
    requires v.base.Some? ==> |v.base.value| == v.baseLen
  {
    && x.len == v.len && x.size == Max(v.len, v.baseLen) && |x.bytes| == x.size + 1
    && forall k :: 0 <= k < |x.bytes| ==>
         x.bytes[k] == if k < |data| then data[k]
                       else if v.base.Some? && k < Min(v.len, v.baseLen) then v.base.value[k] else 0
  }

  predicate AllArrived(xs: seq<Segment>, iov: seq<Input>, data: seq<seq<byte>>)
    requires WellFormed(iov)
  {
    |xs| == |iov| && forall i :: 0 <= i < |iov| ==> Arrived(xs[i], iov[i], if i < |data| then data[i] else [])
  }

  /** Winsock writes to no buffer more than the length which the vector asks for. */
  predicate FitsRequest(data: seq<seq<byte>>, iov: seq<Input>) {
    |data| <= |iov| && forall i :: 0 <= i < |data| ==> |data[i]| <= iov[i].len
  }

  /** What has arrived so far is replaced by at least as many bytes. */
  predicate Supersedes(data: seq<seq<byte>>, early: seq<seq<byte>>) {
    |early| <= |data| && forall i :: 0 <= i < |early| ==> |early[i]| <= |data[i]|
  }

  lemma MoreArrives(xs: seq<Segment>, iov: seq<Input>, early: seq<seq<byte>>, data: seq<seq<byte>>)
    requires WellFormed(iov) && AllArrived(xs, iov, early) && Supersedes(data, early) && FitsRequest(data, iov)
    ensures FitsIn(data, xs) && (forall i :: 0 <= i < |data| ==> |data[i]| <= |xs[i].bytes|)
    ensures AllArrived(Received(xs, data), iov, data)
  {
    forall i | 0 <= i < |iov|
      ensures i < |data| ==> |data[i]| <= xs[i].len && |data[i]| <= |xs[i].bytes|
      ensures Arrived(xs[i], iov[i], if i < |early| then early[i] else [])
    {
    }
    forall i | 0 <= i < |iov|
      ensures Arrived(Received(xs, data)[i], iov[i], if i < |data| then data[i] else [])
    {
      assert Arrived(xs[i], iov[i], if i < |early| then early[i] else []);
    }
  }

  lemma NothingArrived(xs: seq<Segment>, iov: seq<Input>)
    requires WellFormed(iov) && AllFill(xs, iov)
    ensures AllArrived(xs, iov, [])
  {
    forall i | 0 <= i < |iov|
      ensures Arrived(xs[i], iov[i], [])
    {
      assert Fills(xs[i], iov[i]);
    }
  }

  /** An object which goes away takes no block along just if it has no buffers. */
  lemma LosesItsBuffers(w: World, id: nat)
    requires Inv(w) && id in w.objects
    ensures LostBlocks(w) + FootOf(w, ByObject(id)) == LostBlocks(w) <==> ContentOf(w, ByObject(id)) == []
  {
    assert Owns(w, ByObject(id));
    var o := w.objects[id];
    if o != EMPTY {
      assert o.buffers in FootOf(w, ByObject(id));
      assert OwnedBy(w, o.buffers, ByObject(id));
      assert o.buffers !in LostBlocks(w);
    }
  }

  lemma KeptTwice(u: World, v: World, w: World, xs: set<Owner>)
    requires KeptBut(u, v, xs) && KeptBut(v, w, xs)
    ensures KeptBut(u, w, xs)
  {
    forall x | x !in xs
      ensures Kept(u, w, x)
    {
      assert Kept(u, v, x) && Kept(v, w, x);
    }
  }

  /** A call works with the object of the request or with its own one, which is gone in the end. */
  lemma CallKeepsOthers(u: World, v: World, w: World, id: nat, slot: nat)
    requires 0 !in u.objects && slot == (if id in u.objects then id else 0)
    requires KeptBut(u, v, {ByObject(slot)}) && KeptBut(v, w, {ByObject(0)})
    ensures KeptBut(u, w, {ByObject(id)})
  {
    forall x | x !in {ByObject(id)}
      ensures Kept(u, w, x)
    {
      if Present(u, x) {
        assert Kept(u, v, x) && Kept(v, w, x);
      }
    }
  }

  /** What is done to an object which is new leaves all others as they were before it. */
  lemma StillKept(u: World, v: World, w: World, id: nat)
    requires KeptBut(u, v, {}) && KeptBut(v, w, {ByObject(id)}) && id !in u.objects
    ensures KeptBut(u, w, {})
  {
    forall x
      ensures Kept(u, w, x)
    {
      if Present(u, x) {
        assert Kept(u, v, x) && Kept(v, w, x);
      }
    }
  }

  // Operations in progress

  /** The blocks of the objects in `pending`. */
  ghost function BusyBlocks(w: World, pending: set<nat>): set<nat> {
    set p | p in w.owner && w.owner[p].ByObject? && w.owner[p].id in pending
  }

  /** An object has blocks of operations in progress just if it is one of theirs and has buffers. */
  lemma BusyIfPending(w: World, pending: set<nat>, id: nat)
    requires Inv(w)
    ensures FootOf(w, ByObject(id)) !! BusyBlocks(w, pending) <==>
            !(id in pending && ContentOf(w, ByObject(id)) != [])
  {
    var me := ByObject(id);
    if Present(w, me) {
      assert Owns(w, me);
      if id in pending && w.objects[id] != EMPTY {
        assert w.objects[id].buffers in FootOf(w, me);
      }
    }
  }

  lemma RepliesAreNotBusy(w: World, pending: set<nat>, val: nat)
    requires Inv(w)
    ensures FootOf(w, ByReply(val)) !! BusyBlocks(w, pending)
  {
    if Present(w, ByReply(val)) {
      assert Owns(w, ByReply(val));
    }
  }

  /** Objects which stay as they are keep their blocks. */
  lemma BusyStay(u: World, v: World, pending: set<nat>, xs: set<Owner>)
    requires Inv(u) && Inv(v) && KeptBut(u, v, xs) && forall id :: id in pending ==> ByObject(id) !in xs
    ensures BusyBlocks(u, pending) <= BusyBlocks(v, pending)
  {
    forall p | p in BusyBlocks(u, pending)
      ensures p in BusyBlocks(v, pending)
    {
      var x := u.owner[p];
      assert Accounted(u, p) && Kept(u, v, x);
      assert Owns(v, x);
    }
  }

  lemma NoBuffersNoBlocks(w: World, pending: set<nat>, id: nat)
    requires Inv(w) && (id !in pending || ContentOf(w, ByObject(id)) == [])
    ensures BusyBlocks(w, pending) == BusyBlocks(w, pending - {id})
  {
    forall p | p in BusyBlocks(w, pending)
      ensures p in BusyBlocks(w, pending - {id})
    {
      assert Accounted(w, p);
    }
  }

  /** A call which frees the buffers that its object had and perhaps those it has got frees blocks
      in use just if the object of the request has an operation in progress. */
  lemma FreedInUse(u: World, v: World, pending: set<nat>, id: nat, slot: nat, freed: set<nat>)
    requires Inv(u) && Inv(v) && KeptBut(u, v, {ByObject(slot)}) && pending <= u.objects.Keys && 0 !in u.objects
    requires slot == (if id in u.objects then id else 0)
    requires FootOf(u, ByObject(slot)) <= freed <= FootOf(u, ByObject(slot)) + FootOf(v, ByObject(slot))
    ensures freed !! BusyBlocks(u, pending) <==> !(id in pending && ContentOf(u, ByObject(id)) != [])
  {
    BusyIfPending(u, pending, slot);
    if slot !in pending || ContentOf(u, ByObject(slot)) == [] {
      var others := pending - {slot};
      NoBuffersNoBlocks(u, pending, slot);
      BusyStay(u, v, others, {ByObject(slot)});
      BusyIfPending(v, others, slot);
    }
  }

  class Agent {
    var heap: Heap
    var objects: map<nat, Record>
    ghost var replies: set<nat>
    ghost var owner: map<nat, Owner>
    /** The objects with an operation in progress: Windows may write to their buffers. */
    ghost var pending: set<nat>
    /** The blocks which the current call has freed so far. */
    ghost var freed: set<nat>

    ghost function State(): World
      reads this
    {
      World(heap, objects, replies, owner)
    }

    /** Between calls: every block has one owner, and no call is in progress. */
    ghost predicate Valid()
      reads this
    {
      Inv(State()) && 0 !in objects && pending <= objects.Keys
    }

    constructor ()
      ensures Valid() && heap == map[] && objects == map[] && replies == {} && pending == {}
    {
      heap, objects, replies, owner, pending, freed := map[], map[], {}, map[], {}, {};
    }

    // Memory

    /** TE_ALLOC(): a block nobody has. */
    method Alloc(b: Block) returns (p: nat)
      modifies this`heap
      ensures p != 0 && p !in old(heap) && heap == old(heap)[p := b]
    {
      p := 1;
      while p in heap
        invariant p > 0
        invariant heap == old(heap)
        decreases set k | k in heap && k >= p
      {
        ghost var before := set k | k in heap && k >= p;
        ghost var after := set k | k in heap && k >= p + 1;
        assert p in before && p !in after;
        p := p + 1;
      }
      heap := heap[p := b];
    }

    /** free(): only of a block which is there. */
    method Free(p: nat)
      requires p in heap
      modifies this`heap, this`freed
      ensures heap == old(heap) - {p} && freed == old(freed) + {p}
    {
      heap, freed := heap - {p}, freed + {p};
    }

    /** overlapped_free_buffers() */
    method FreeBuffers(o: Record) returns (r: Record)
      requires Sound(heap, o)
      modifies this`heap, this`freed
      ensures r == EMPTY && heap == Minus(old(heap), Foot(old(heap), o))
      ensures freed == old(freed) + Foot(old(heap), o)
    {
      if o.buffers == 0 {
        return o;
      }
      ghost var h := heap;
      var bufs := heap[o.buffers].bufs;
      var i := 0;
      while i < o.bufnum
        invariant 0 <= i <= o.bufnum
        invariant heap == Minus(h, BufsOf(bufs[..i])) && freed == old(freed) + BufsOf(bufs[..i])
      {
        assert RoomFor(h, bufs[i], h[o.sizes].sizes[i]);
        assert BufsOf(bufs[..i + 1]) == BufsOf(bufs[..i]) + {bufs[i].buf};
        Free(bufs[i].buf);
        i := i + 1;
      }
      assert bufs[..i] == bufs;
      Free(o.buffers);
      Free(o.sizes);
      r := EMPTY;
    }

    /** The buffer for one vector. */
    method CopyOne(v: Input) returns (p: nat)
      requires v.base.Some? ==> |v.base.value| == v.baseLen
      modifies this`heap
      ensures p != 0 && p !in old(heap) && p in heap && heap == old(heap)[p := heap[p]] && heap[p].Bytes?
      ensures Fills(Segment(heap[p].bytes, Max(v.len, v.baseLen), v.len), v)
    {
      var zeros := seq(Max(v.len, v.baseLen) + 1, _ => 0);
      p := Alloc(Bytes(zeros));
      if v.base.Some? {
        var n := Min(v.len, v.baseLen);
        heap := heap[p := Bytes(v.base.value[..n] + zeros[n..])];
      }
    }

    /** The buffer for vector `i`, which is entered into the arrays. */
    method CopyNext(iov: seq<Input>, i: nat, b: nat, z: nat, bufs: seq<Buffer>, sizes: seq<nat>, ghost g: Heap)
      returns (bufs': seq<Buffer>, sizes': seq<nat>)
      requires WellFormed(iov) && i < |iov| && Filling(g, heap, b, z, bufs, sizes, iov, i)
      modifies this`heap
      ensures Filling(g, heap, b, z, bufs', sizes', iov, i + 1)
    {
      ghost var h := heap;
      var p := CopyOne(iov[i]);
      sizes' := sizes[i := Max(iov[i].len, iov[i].baseLen)];
      heap := heap[z := Sizes(sizes')];
      bufs' := bufs[i := Buffer(iov[i].len, p)];
      heap := heap[b := Buffers(bufs')];
      FillingGoesOn(g, h, heap, b, z, iov, i, p);
    }

    /** New buffers for all vectors. */
    method CopyAll(iov: seq<Input>) returns (r: Record)
      requires WellFormed(iov) && |iov| > 0
      modifies this`heap
      ensures Sound(heap, r) && AllFill(Data(heap, r), iov)
      ensures heap.Keys == old(heap).Keys + Foot(heap, r) && Foot(heap, r) !! old(heap).Keys
      ensures Same(old(heap), heap, old(heap).Keys)
    {
      ghost var g := heap;
      var bufs: seq<Buffer> := seq(|iov|, _ => Buffer(0, 0));
      var sizes: seq<nat> := seq(|iov|, _ => 0);
      var b := Alloc(Buffers(bufs));
      var z := Alloc(Sizes(sizes));
      var i := 0;
      while i < |iov|
        invariant 0 <= i <= |iov| && Filling(g, heap, b, z, bufs, sizes, iov, i)
      {
        bufs, sizes := CopyNext(iov, i, b, z, bufs, sizes, g);
        i := i + 1;
      }
      FillingIsDone(g, heap, b, z, iov);
      r := Record(b, z, |iov|);
    }

    /** iovec2overlapped() */
    method Fill(o: Record, iov: seq<Input>) returns (r: Record)
      requires Sound(heap, o) && WellFormed(iov)
      modifies this`heap, this`freed
      ensures Sound(heap, r) && AllFill(Data(heap, r), iov) && freed == old(freed) + Foot(old(heap), o)
      ensures var rest := Minus(old(heap), Foot(old(heap), o));
              heap.Keys == rest.Keys + Foot(heap, r) && Foot(heap, r) !! rest.Keys && Same(rest, heap, rest.Keys)
    {
      r := FreeBuffers(o);
      if |iov| != 0 {
        r := CopyAll(iov);
      }
    }

    /** overlapped2iovec() */
    method Move(o: Record) returns (len: nat, val: nat, r: Record)
      requires Sound(heap, o)
      modifies this`heap, this`freed
      ensures freed == old(freed) + (if o == EMPTY then {} else {o.buffers, o.sizes})
      ensures r == EMPTY && len == |Data(old(heap), o)|
      ensures o == EMPTY ==> val == 0 && heap == old(heap)
      ensures o != EMPTY ==> val != 0 && Moved(old(heap), o, heap, val)
    {
      len, val := 0, 0;
      if o.bufnum == 0 {
        assert o == EMPTY;
        return len, val, o;
      }
      ghost var h := heap;
      var bufs, sizes := heap[o.buffers].bufs, heap[o.sizes].sizes;
      var vs: seq<Vector> := seq(o.bufnum, _ => Vector(0, 0, 0));
      val := Alloc(Vectors(vs));
      var i := 0;
      while i < o.bufnum
        invariant 0 <= i <= o.bufnum == |vs|
        invariant heap == h[val := Vectors(vs)] && freed == old(freed)
        invariant forall j :: 0 <= j < i ==> vs[j] == Vector(bufs[j].buf, sizes[j], bufs[j].len)
      {
        vs := vs[i := Vector(bufs[i].buf, sizes[i], bufs[i].len)];
        heap := heap[val := Vectors(vs)];
        i := i + 1;
      }
      len := o.bufnum;
      Free(o.buffers);
      Free(o.sizes);
      assert freed == old(freed) + {o.buffers, o.sizes};
      r := EMPTY;
      VectorsTakeOver(h, o, heap, val, vs);
    }

    /** The vectors of a reply and their buffers are freed. */
    method FreeVectors(val: nat)
      requires ReplySound(heap, val)
      modifies this`heap, this`freed
      ensures heap == Minus(old(heap), ReplyFoot(old(heap), val)) && freed == old(freed) + ReplyFoot(old(heap), val)
    {
      ghost var h := heap;
      var vs := heap[val].vectors;
      var i := 0;
      while i < |vs|
        invariant 0 <= i <= |vs|
        invariant heap == Minus(h, BasesOf(vs[..i])) && freed == old(freed) + BasesOf(vs[..i])
      {
        assert BasesOf(vs[..i + 1]) == BasesOf(vs[..i]) + {vs[i].base};
        Free(vs[i].base);
        i := i + 1;
      }
      assert vs[..i] == vs;
      Free(val);
    }

    /** Windows writes received data to the buffers it was given, to each no more than its length. */
    method Receive(o: Record, data: seq<seq<byte>>)
      requires Sound(heap, o) && FitsIn(data, Data(heap, o))
      modifies this`heap
      ensures Sound(heap, o) && Foot(heap, o) == Foot(old(heap), o)
      ensures Data(heap, o) == Received(Data(old(heap), o), data)
      ensures heap.Keys == old(heap).Keys && Same(old(heap), heap, old(heap).Keys - Foot(old(heap), o))
    {
      ghost var h := heap;
      if |data| == 0 {
        return;
      }
      var bufs := heap[o.buffers].bufs;
      var i := 0;
      while i < |data|
        invariant 0 <= i <= |data|
        invariant Sound(h, o) && FitsIn(data, Data(h, o)) && PartlyReceived(h, heap, bufs, data, i)
      {
        ghost var before := heap;
        assert RoomFor(h, bufs[i], h[o.sizes].sizes[i]) && Data(h, o)[i].len == bufs[i].len;
        var bytes := heap[bufs[i].buf].bytes;
        heap := heap[bufs[i].buf := Bytes(data[i] + bytes[|data[i]|..])];
        forall j | 0 <= j < |bufs| && j != i
          ensures bufs[j].buf != bufs[i].buf
        {
        }
        i := i + 1;
      }
      ReceivingIsDone(h, heap, o, data);
    }

    // Steps of the calls

    /** OVERLAPPED_PREPARE: the object of the request, or one of the call itself, gets the buffers. */
    method Prepare(id: nat, iov: seq<Input>) returns (slot: nat)
      requires Valid() && WellFormed(iov)
      modifies this`heap, this`objects, this`owner, this`freed
      ensures freed == old(freed) + FootOf(old(State()), ByObject(slot))
      ensures Inv(State()) && slot == (if id in old(objects) then id else 0)
      ensures objects.Keys == old(objects).Keys + {slot} && replies == old(replies)
      ensures AllFill(ContentOf(State(), ByObject(slot)), iov)
      ensures KeptBut(old(State()), State(), {ByObject(slot)}) && LostBlocks(State()) == old(LostBlocks(State()))
    {
      ghost var w := State();
      slot := if id in objects then id else 0;
      var o := EMPTY;
      if slot in objects {
        o := objects[slot];
        assert Owns(w, ByObject(slot));
      }
      var r := Fill(o, iov);
      ObjectChanges(w, slot, heap, r);
      objects := objects[slot := r];
      owner := WithObject(w, slot, heap, r).owner;
    }

    /** The buffers of an object are freed. */
    method Drop(slot: nat)
      requires Inv(State()) && slot in objects
      modifies this`heap, this`objects, this`owner, this`freed
      ensures freed == old(freed) + FootOf(old(State()), ByObject(slot))
      ensures Inv(State()) && objects == old(objects)[slot := EMPTY] && replies == old(replies)
      ensures ContentOf(State(), ByObject(slot)) == []
      ensures KeptBut(old(State()), State(), {ByObject(slot)}) && LostBlocks(State()) == LostBlocks(old(State()))
    {
      ghost var w := State();
      assert Owns(w, ByObject(slot));
      var r := FreeBuffers(objects[slot]);
      ObjectChanges(w, slot, heap, r);
      objects := objects[slot := r];
      owner := WithObject(w, slot, heap, r).owner;
    }

    /** The buffers of an object become vectors of a reply. */
    method MoveOut(slot: nat) returns (len: nat, val: nat)
      requires Inv(State()) && slot in objects
      modifies this`heap, this`objects, this`replies, this`owner, this`freed
      ensures old(freed) <= freed <= old(freed) + FootOf(old(State()), ByObject(slot))
      ensures Inv(State()) && objects == old(objects)[slot := EMPTY]
      ensures len == |ContentOf(old(State()), ByObject(slot))| && ContentOf(State(), ByObject(slot)) == []
      ensures len == 0 ==> val == 0 && replies == old(replies)
      ensures len > 0 ==> val != 0 && val !in old(replies) && replies == old(replies) + {val}
                          && ContentOf(State(), ByReply(val)) == ContentOf(old(State()), ByObject(slot))
      ensures KeptBut(old(State()), State(), {ByObject(slot)}) && LostBlocks(State()) == LostBlocks(old(State()))
    {
      ghost var w := State();
      assert Owns(w, ByObject(slot));
      var r: Record;
      len, val, r := Move(objects[slot]);
      if val == 0 {
        objects := objects[slot := r];
        assert objects == w.objects;
      } else {
        BuffersLeave(w, slot, heap, val);
        objects := objects[slot := r];
        replies := replies + {val};
        owner := WithReply(w, slot, heap, val).owner;
      }
    }

    /** Received data arrives in the buffers of an object. */
    method Arrive(slot: nat, data: seq<seq<byte>>)
      requires Inv(State()) && slot in objects && FitsIn(data, ContentOf(State(), ByObject(slot)))
      modifies this`heap, this`objects, this`owner, this`freed
      ensures freed == old(freed)
      ensures Inv(State()) && objects == old(objects) && replies == old(replies)
      ensures forall i :: 0 <= i < |data| ==> |data[i]| <= |ContentOf(old(State()), ByObject(slot))[i].bytes|
      ensures ContentOf(State(), ByObject(slot)) == Received(ContentOf(old(State()), ByObject(slot)), data)
      ensures KeptBut(old(State()), State(), {ByObject(slot)}) && LostBlocks(State()) == LostBlocks(old(State()))
    {
      ghost var w := State();
      var o := objects[slot];
      assert Owns(w, ByObject(slot));
      Receive(o, data);
      FootInHeap(w.heap, o);
      ObjectChanges(w, slot, heap, o);
      assert objects == w.objects[slot := o];
      owner := WithObject(w, slot, heap, o).owner;
    }

    /** The end of a call: its own object, if it had one, goes away. */
    method Finish(slot: nat)
      requires Inv(State()) && slot in objects && (0 in objects ==> slot == 0) && pending <= objects.Keys - {0}
      modifies this`heap, this`objects, this`owner, this`freed
      ensures freed == old(freed)
      ensures Valid() && objects == old(objects) - {0} && replies == old(replies)
      ensures KeptBut(old(State()), State(), {ByObject(0)})
      ensures slot != 0 ==> ContentOf(State(), ByObject(slot)) == ContentOf(old(State()), ByObject(slot))
      ensures forall val :: val in replies ==> ContentOf(State(), ByReply(val)) == ContentOf(old(State()), ByReply(val))
      ensures LostBlocks(State()) == LostBlocks(old(State()))
              <==> slot != 0 || ContentOf(old(State()), ByObject(slot)) == []
    {
      ghost var w := State();
      if slot == 0 {
        LosesItsBuffers(w, 0);
        ObjectGoes(w, 0);
        objects := objects - {0};
        owner := WithoutObject(w, 0).owner;
      }
      forall val | val in replies
        ensures ContentOf(State(), ByReply(val)) == ContentOf(w, ByReply(val))
      {
        assert Kept(w, State(), ByReply(val));
      }
    }

    // The calls, and what Windows does

    /** Windows completes an operation, for which data may have arrived meanwhile. */
    method Complete(id: nat, data: seq<seq<byte>>)
      requires Valid() && id in pending && FitsIn(data, ContentOf(State(), ByObject(id)))
      modifies this
      ensures Valid() && objects == old(objects) && replies == old(replies) && pending == old(pending) - {id}
      ensures freed == {}
      ensures forall i :: 0 <= i < |data| ==> |data[i]| <= |ContentOf(old(State()), ByObject(id))[i].bytes|
      ensures ContentOf(State(), ByObject(id)) == Received(ContentOf(old(State()), ByObject(id)), data)
      ensures KeptBut(old(State()), State(), {ByObject(id)}) && LostBlocks(State()) == LostBlocks(old(State()))
    {
      freed := {};
      Arrive(id, data);
      pending := pending - {id};
    }

    /** create_overlapped */
    method CreateOverlapped() returns (id: nat)
      requires Valid()
      modifies this
      ensures Valid() && id !in old(objects) && objects == old(objects)[id := EMPTY] && replies == old(replies)
      ensures KeptBut(old(State()), State(), {}) && heap == old(heap) && pending == old(pending) && freed == {}
    {
      freed := {};
      id := 1;
      while id in objects
        invariant id > 0
        decreases set k | k in objects && k >= id
      {
        ghost var before := set k | k in objects && k >= id;
        assert id in before && id !in (set k | k in objects && k >= id + 1);
        id := id + 1;
      }
      ghost var w := State();
      ObjectChanges(w, id, heap, EMPTY);
      objects := objects[id := EMPTY];
      assert owner == WithObject(w, id, heap, EMPTY).owner;
      assert forall x :: Kept(w, State(), x);
    }

    /** delete_overlapped */
    method DeleteOverlapped(id: nat)
      requires Valid()
      modifies this
      ensures Valid() && objects == old(objects) - {id} && replies == old(replies) && pending == old(pending) - {id}
      ensures KeptBut(old(State()), State(), {ByObject(id)}) && LostBlocks(State()) == LostBlocks(old(State()))
      ensures freed !! BusyBlocks(old(State()), old(pending)) <==>
              !(id in old(pending) && ContentOf(old(State()), ByObject(id)) != [])
    {
      freed := {};
      BusyIfPending(State(), pending, id);
      pending := pending - {id};
      if id in objects {
        Drop(id);
        ghost var w := State();
        ObjectGoes(w, id);
        LosesItsBuffers(w, id);
        objects := objects - {id};
        owner := WithoutObject(w, id).owner;
      }
    }

    /** wsa_send and wsa_send_to up to their end, at which an object of their own goes away. */
    method SendWith(id: nat, iov: seq<Input>, retval: int, err: int) returns (slot: nat)
      requires Valid() && WellFormed(iov)
      modifies this`heap, this`objects, this`owner, this`freed
      ensures Inv(State()) && slot == (if id in old(objects) then id else 0)
      ensures objects.Keys == old(objects).Keys + {slot} && replies == old(replies)
      ensures KeptBut(old(State()), State(), {ByObject(slot)}) && LostBlocks(State()) == LostBlocks(old(State()))
      ensures if retval != 0 && err == WSA_IO_PENDING then AllFill(ContentOf(State(), ByObject(slot)), iov)
              else ContentOf(State(), ByObject(slot)) == []
      ensures freed !! BusyBlocks(old(State()), pending) <==>
              !(id in pending && ContentOf(old(State()), ByObject(id)) != [])
    {
      freed := {};
      ghost var u := State();
      slot := Prepare(id, iov);
      ghost var v := State();
      if WsaError(retval, err) != WSA_IO_PENDING {
        Drop(slot);
        KeptTwice(u, v, State(), {ByObject(slot)});
      }
      FreedInUse(u, v, pending, id, slot, freed);
    }

    /** wsa_send and wsa_send_to: afterwards the buffers remain just if the operation is in progress. */
    method Send(id: nat, iov: seq<Input>, retval: int, err: int)
      requires Valid() && WellFormed(iov)
      modifies this
      ensures var inProgress := retval != 0 && err == WSA_IO_PENDING;
              && Valid() && objects.Keys == old(objects).Keys && replies == old(replies)
              && KeptBut(old(State()), State(), {ByObject(id)})
              && (id in objects && inProgress ==> AllFill(ContentOf(State(), ByObject(id)), iov))
              && (id in objects && !inProgress ==> ContentOf(State(), ByObject(id)) == [])
              && (LostBlocks(State()) == LostBlocks(old(State())) <==> id in objects || !inProgress || iov == [])
              && pending == (if id in objects && inProgress then old(pending) + {id} else old(pending) - {id})
              && (freed !! BusyBlocks(old(State()), old(pending)) <==>
                  !(id in old(pending) && ContentOf(old(State()), ByObject(id)) != []))
    {
      ghost var u, busy := State(), pending;
      var slot := SendWith(id, iov, retval, err);
      ghost var v := State();
      pending := if slot != 0 && WsaError(retval, err) == WSA_IO_PENDING then busy + {id} else busy - {id};
      Finish(slot);
      CallKeepsOthers(u, v, State(), id, slot);
    }

    /** RECV_FINISH: the buffers are moved to the reply, kept for the operation in progress, or freed. */
    method RecvFinish(slot: nat, retval: int, wsaErr: int) returns (len: nat, val: nat)
      requires Inv(State()) && slot in objects
      modifies this`heap, this`objects, this`replies, this`owner, this`freed
      ensures old(freed) <= freed <= old(freed) + FootOf(old(State()), ByObject(slot))
      ensures var moved := retval == 0 || wsaErr == WSAEMSGSIZE;
              var kept := !moved && wsaErr == WSA_IO_PENDING;
              var had := ContentOf(old(State()), ByObject(slot));
              && Inv(State()) && objects.Keys == old(objects).Keys
              && KeptBut(old(State()), State(), {ByObject(slot)}) && LostBlocks(State()) == LostBlocks(old(State()))
              && ContentOf(State(), ByObject(slot)) == (if kept then had else [])
              && len == (if moved then |had| else 0)
              && replies == old(replies) + (if len > 0 then {val} else {})
              && (len > 0 ==> val !in old(replies) && ContentOf(State(), ByReply(val)) == had)
    {
      len, val := 0, 0;
      if retval == 0 || wsaErr == WSAEMSGSIZE {
        len, val := MoveOut(slot);
      } else if wsaErr != WSA_IO_PENDING {
        Drop(slot);
      }
    }

    /** OVERLAPPED_PREPARE and the data which has arrived when Winsock returns. */
    method PrepareAndReceive(id: nat, iov: seq<Input>, data: seq<seq<byte>>) returns (slot: nat)
      requires Valid() && WellFormed(iov) && FitsRequest(data, iov)
      modifies this`heap, this`objects, this`owner, this`freed
      ensures freed == old(freed) + FootOf(old(State()), ByObject(slot))
      ensures Inv(State()) && slot == (if id in old(objects) then id else 0)
      ensures objects.Keys == old(objects).Keys + {slot} && replies == old(replies)
      ensures AllArrived(ContentOf(State(), ByObject(slot)), iov, data)
      ensures KeptBut(old(State()), State(), {ByObject(slot)}) && LostBlocks(State()) == LostBlocks(old(State()))
    {
      ghost var u := State();
      slot := Prepare(id, iov);
      ghost var v := State();
      NothingArrived(ContentOf(v, ByObject(slot)), iov);
      MoreArrives(ContentOf(v, ByObject(slot)), iov, [], data);
      Arrive(slot, data);
      KeptTwice(u, v, State(), {ByObject(slot)});
    }

    /** wsa_recv and wsa_recv_from up to their end, at which an object of their own goes away. */
    method RecvWith(id: nat, iov: seq<Input>, data: seq<seq<byte>>, retval: int, err: int)
      returns (slot: nat, len: nat, val: nat)
      requires Valid() && WellFormed(iov) && FitsRequest(data, iov)
      modifies this`heap, this`objects, this`replies, this`owner, this`freed
      ensures var received := retval == 0 || err == WSAEMSGSIZE;
              var inProgress := !received && err == WSA_IO_PENDING;
              && Inv(State()) && slot == (if id in old(objects) then id else 0)
              && objects.Keys == old(objects).Keys + {slot}
              && KeptBut(old(State()), State(), {ByObject(slot)}) && LostBlocks(State()) == LostBlocks(old(State()))
              && len == (if received then |iov| else 0)
              && replies == old(replies) + (if len > 0 then {val} else {})
              && (len > 0 ==> val !in old(replies) && AllArrived(ContentOf(State(), ByReply(val)), iov, data))
              && (inProgress ==> AllArrived(ContentOf(State(), ByObject(slot)), iov, data))
              && (!inProgress ==> ContentOf(State(), ByObject(slot)) == [])
      ensures freed !! BusyBlocks(old(State()), pending) <==>
              !(id in pending && ContentOf(old(State()), ByObject(id)) != [])
    {
      freed := {};
      ghost var u := State();
      slot := PrepareAndReceive(id, iov, data);
      ghost var v := State();
      len, val := RecvFinish(slot, retval, WsaError(retval, err));
      KeptTwice(u, v, State(), {ByObject(slot)});
      FreedInUse(u, v, pending, id, slot, freed);
    }

    /** wsa_recv and wsa_recv_from. */
    method Recv(id: nat, iov: seq<Input>, data: seq<seq<byte>>, retval: int, err: int) returns (len: nat, val: nat)
      requires Valid() && WellFormed(iov) && FitsRequest(data, iov)
      modifies this
      ensures var received := retval == 0 || err == WSAEMSGSIZE;
              var inProgress := !received && err == WSA_IO_PENDING;
              && Valid() && objects.Keys == old(objects).Keys
              && KeptBut(old(State()), State(), {ByObject(id)})
              && len == (if received then |iov| else 0)
              && replies == old(replies) + (if len > 0 then {val} else {})
              && (len > 0 ==> val !in old(replies) && AllArrived(ContentOf(State(), ByReply(val)), iov, data))
              && (id in objects && inProgress ==> AllArrived(ContentOf(State(), ByObject(id)), iov, data))
              && (id in objects && !inProgress ==> ContentOf(State(), ByObject(id)) == [])
              && (LostBlocks(State()) == LostBlocks(old(State())) <==> id in objects || !inProgress || iov == [])
              && pending == (if id in objects && inProgress then old(pending) + {id} else old(pending) - {id})
              && (freed !! BusyBlocks(old(State()), old(pending)) <==>
                  !(id in old(pending) && ContentOf(old(State()), ByObject(id)) != []))
    {
      ghost var u, busy := State(), pending;
      var slot;
      slot, len, val := RecvWith(id, iov, data, retval, err);
      ghost var v := State();
      ghost var inProgress := retval != 0 && err == WSA_IO_PENDING;
      pending := if slot != 0 && inProgress then busy + {id} else busy - {id};
      Finish(slot);
      CallKeepsOthers(u, v, State(), id, slot);
    }

    /** wsa_get_overlapped_result: the buffers leave with the reply if the operation is complete and
        the data is asked for. */
    method GetOverlappedResult(id: nat, complete: bool, getData: bool) returns (ok: bool, len: nat, val: nat)
      requires Valid()
      modifies this
      ensures Valid() && ok == (id in old(objects)) && objects.Keys == old(objects).Keys
      ensures var moved := ok && complete && getData;
              && KeptBut(old(State()), State(), if moved then {ByObject(id)} else {})
              && LostBlocks(State()) == LostBlocks(old(State()))
              && len == (if moved then |ContentOf(old(State()), ByObject(id))| else 0)
              && replies == old(replies) + (if len > 0 then {val} else {})
              && (moved ==> ContentOf(State(), ByObject(id)) == [])
              && pending == (if complete then old(pending) - {id} else old(pending))
              && freed !! BusyBlocks(old(State()), pending)
              && (len > 0 ==> val !in old(replies)
                              && ContentOf(State(), ByReply(val)) == ContentOf(old(State()), ByObject(id)))
    {
      freed := {};
      ok, len, val := id in objects, 0, 0;
      if complete {
        pending := pending - {id};
      }
      if ok && complete && getData {
        BusyIfPending(State(), pending, id);
        len, val := MoveOut(id);
      }
    }

    /** The end of a receiving operation which was pending: the data which has arrived since is in the
        reply. */
    method GetReceived(id: nat, ghost iov: seq<Input>, ghost early: seq<seq<byte>>, data: seq<seq<byte>>)
      returns (ok: bool, len: nat, val: nat)
      requires Valid() && id in pending && WellFormed(iov) && AllArrived(ContentOf(State(), ByObject(id)), iov, early)
      requires Supersedes(data, early) && FitsRequest(data, iov)
      modifies this
      ensures Valid() && ok && len == |iov| && objects.Keys == old(objects).Keys
      ensures len > 0 ==> val !in old(replies) && AllArrived(ContentOf(State(), ByReply(val)), iov, data)
      ensures ContentOf(State(), ByObject(id)) == [] && pending == old(pending) - {id}
      ensures KeptBut(old(State()), State(), {ByObject(id)}) && LostBlocks(State()) == LostBlocks(old(State()))
    {
      ghost var u := State();
      MoreArrives(ContentOf(u, ByObject(id)), iov, early, data);
      Complete(id, data);
      ghost var v := State();
      ok, len, val := GetOverlappedResult(id, true, true);
      KeptTwice(u, v, State(), {ByObject(id)});
    }

    /** Two sending calls with one object, of which the first one is still in progress: the second one
        frees blocks which Windows still uses. */
    method SendWhilePending(iov: seq<Input>, retval: int, err: int)
      returns (id: nat, ghost between: World, ghost busy: set<nat>)
      requires Valid() && WellFormed(iov) && iov != []
      modifies this
      ensures Valid() && id !in old(objects) && id in objects && replies == old(replies)
      ensures KeptBut(old(State()), between, {}) && AllFill(ContentOf(between, ByObject(id)), iov) && id in busy
      ensures !(freed !! BusyBlocks(between, busy))
    {
      ghost var u := State();
      id := CreateOverlapped();
      ghost var v := State();
      Send(id, iov, -1, WSA_IO_PENDING);
      between, busy := State(), pending;
      StillKept(u, v, between, id);
      Send(id, iov, retval, err);
    }

    /** The server frees a reply once it is encoded. */
    method FreeReply(val: nat)
      requires Valid() && val in replies
      modifies this
      ensures Valid() && objects == old(objects) && replies == old(replies) - {val} && pending == old(pending)
      ensures freed !! BusyBlocks(old(State()), pending)
      ensures KeptBut(old(State()), State(), {ByReply(val)}) && LostBlocks(State()) == LostBlocks(old(State()))
    {
      freed := {};
      ghost var w := State();
      assert Owns(w, ByReply(val));
      ReplyGoes(w, val);
      RepliesAreNotBusy(w, pending, val);
      FreeVectors(val);
      replies := replies - {val};
      owner := WithoutReply(w, val).owner;
    }
  }
}
