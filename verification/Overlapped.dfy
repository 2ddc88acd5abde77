/** Buffers of overlapped operations in agents/win32/tarpc_wsa.c: they are allocated for a call, live with
    an overlapped object while the operation is in progress, and leave with an RPC reply. */
module Overlapped {
  import opened Wrappers

  type byte = x: int | 0 <= x < 256

  const WSA_IO_PENDING := 997
  const WSAEMSGSIZE := 10040

  /** A vector of a request; an absent base is the null pointer. */
  datatype Input = Input(base: Option<seq<byte>>, baseLen: nat, len: nat)

  /** WSABUF, and a vector of a reply. Pointers are block numbers, 0 is the null pointer. */
  datatype Buffer = Buffer(len: nat, buf: nat)
  datatype Vector = Vector(base: nat, baseLen: nat, len: nat)

  datatype Block = Bytes(bytes: seq<byte>) | Buffers(bufs: seq<Buffer>)
                 | Sizes(sizes: seq<nat>) | Vectors(vectors: seq<Vector>)

  type Heap = map<nat, Block>

  /** The fields of rpc_overlapped which lead to memory. */
  datatype Record = Record(buffers: nat, sizes: nat, bufnum: nat)

  const EMPTY := Record(0, 0, 0)

  function Minus(h: Heap, ps: set<nat>): Heap {
    h - ps
  }

  predicate WellFormed(iov: seq<Input>) {
    forall i :: 0 <= i < |iov| && iov[i].base.Some? ==> |iov[i].base.value| == iov[i].baseLen
  }

  function Max(a: nat, b: nat): (r: nat)
    ensures r >= a && r >= b && (r == a || r == b)
  {
    if a < b then b else a
  }

  function Min(a: nat, b: nat): (r: nat)
    ensures r <= a && r <= b && (r == a || r == b)
  {
    if a < b then a else b
  }

  // What is in an object and in a reply

  /** One buffer: what it holds, its allocated size (without the spare byte) and its length. */
  datatype Segment = Segment(bytes: seq<byte>, size: nat, len: nat)

  /** The buffers of the object are there, apart from each other, and have room for their lengths. */
  predicate Sound(h: Heap, o: Record) {
    o == EMPTY ||
    (&& o.buffers != 0 && o.bufnum > 0 && o.buffers in h && o.sizes in h
     && h[o.buffers].Buffers? && h[o.sizes].Sizes?
     && |h[o.buffers].bufs| == |h[o.sizes].sizes| == o.bufnum
     && (forall i :: 0 <= i < o.bufnum ==> RoomFor(h, h[o.buffers].bufs[i], h[o.sizes].sizes[i]))
     && (forall i, j :: 0 <= i < j < o.bufnum ==> h[o.buffers].bufs[i].buf != h[o.buffers].bufs[j].buf))
  }

  predicate RoomFor(h: Heap, b: Buffer, size: nat) {
    b.buf in h && h[b.buf].Bytes? && |h[b.buf].bytes| == size + 1 && b.len <= size
  }

  function BufsOf(bufs: seq<Buffer>): set<nat> {
    set i | 0 <= i < |bufs| :: bufs[i].buf
  }

  function BasesOf(vs: seq<Vector>): set<nat> {
    set i | 0 <= i < |vs| :: vs[i].base
  }

  /** All blocks of an object. */
  function Foot(h: Heap, o: Record): set<nat>
    requires Sound(h, o)
  {
    if o == EMPTY then {} else {o.buffers, o.sizes} + BufsOf(h[o.buffers].bufs)
  }

  function Data(h: Heap, o: Record): seq<Segment>
    requires Sound(h, o)
  {
    if o == EMPTY then [] else
    seq(o.bufnum, i requires 0 <= i < o.bufnum =>
      Segment(h[h[o.buffers].bufs[i].buf].bytes, h[o.sizes].sizes[i], h[o.buffers].bufs[i].len))
  }

  predicate ReplySound(h: Heap, r: nat) {
    && r in h && h[r].Vectors?
    && (forall i :: 0 <= i < |h[r].vectors| ==> h[r].vectors[i].base in h && h[h[r].vectors[i].base].Bytes?)
    && (forall i, j :: 0 <= i < j < |h[r].vectors| ==> h[r].vectors[i].base != h[r].vectors[j].base)
  }

  function ReplyFoot(h: Heap, r: nat): set<nat>
    requires ReplySound(h, r)
  {
    {r} + BasesOf(h[r].vectors)
  }

  function ReplyData(h: Heap, r: nat): seq<Segment>
    requires ReplySound(h, r)
  {
    var v := h[r].vectors;
    seq(|v|, i requires 0 <= i < |v| => Segment(h[v[i].base].bytes, v[i].baseLen, v[i].len))
  }

  /** The buffer made for a vector of a request: the length is kept, there is room for the length and
      for the base, the common part is copied and the rest is zero. */
  predicate Fills(x: Segment, v: Input)
    requires v.base.Some? ==> |v.base.value| == v.baseLen
  {
    && x.len == v.len && x.size == Max(v.len, v.baseLen) && |x.bytes| == x.size + 1
    && forall k :: 0 <= k < |x.bytes| ==>
         x.bytes[k] == if v.base.Some? && k < Min(v.len, v.baseLen) then v.base.value[k] else 0
  }

  predicate AllFill(xs: seq<Segment>, iov: seq<Input>)
    requires WellFormed(iov)
  {
    |xs| == |iov| && forall i :: 0 <= i < |iov| ==> Fills(xs[i], iov[i])
  }

  /** Heaps agree on the blocks `ps`. */
  predicate Same(h: Heap, g: Heap, ps: set<nat>) {
    forall p :: p in ps ==> p in h && p in g && h[p] == g[p]
  }

  lemma ObjectIsSame(h: Heap, g: Heap, o: Record)
    requires Sound(h, o) && Same(h, g, Foot(h, o))
    ensures Sound(g, o) && Foot(g, o) == Foot(h, o) && Data(g, o) == Data(h, o)
  {
    if o != EMPTY {
      var bufs := h[o.buffers].bufs;
      assert o.buffers in Foot(h, o) && o.sizes in Foot(h, o);
      forall i | 0 <= i < o.bufnum
        ensures bufs[i].buf in g && g[bufs[i].buf] == h[bufs[i].buf]
        ensures RoomFor(g, bufs[i], h[o.sizes].sizes[i])
      {
        assert bufs[i].buf in Foot(h, o);
        assert RoomFor(h, bufs[i], h[o.sizes].sizes[i]);
      }
    }
  }

  lemma ReplyIsSame(h: Heap, g: Heap, r: nat)
    requires ReplySound(h, r) && Same(h, g, ReplyFoot(h, r))
    ensures ReplySound(g, r) && ReplyFoot(g, r) == ReplyFoot(h, r) && ReplyData(g, r) == ReplyData(h, r)
  {
    var v := h[r].vectors;
    assert r in ReplyFoot(h, r);
    forall i | 0 <= i < |v|
      ensures v[i].base in g && g[v[i].base] == h[v[i].base]
    {
      assert v[i].base in ReplyFoot(h, r);
    }
  }

  lemma FootInHeap(h: Heap, o: Record)
    requires Sound(h, o)
    ensures Foot(h, o) <= h.Keys
  {
    if o != EMPTY {
      forall i | 0 <= i < o.bufnum
        ensures h[o.buffers].bufs[i].buf in h
      {
        assert RoomFor(h, h[o.buffers].bufs[i], h[o.sizes].sizes[i]);
      }
    }
  }

  /** `h` has the blocks of `g` and an object in which the first `i` vectors have their buffers. */
  ghost predicate Filling(g: Heap, h: Heap, b: nat, z: nat, bufs: seq<Buffer>, sizes: seq<nat>, iov: seq<Input>, i: nat)
    requires WellFormed(iov) && i <= |iov|
  {
    && |bufs| == |sizes| == |iov| && b !in g && z !in g && b != 0
    && Holds(h, b, Buffers(bufs)) && Holds(h, z, Sizes(sizes))
    && h.Keys == g.Keys + {b, z} + BufsOf(bufs[..i])
    && Same(g, h, g.Keys)
    && (forall j :: 0 <= j < i ==> bufs[j].buf !in g && BufferFills(h, bufs[j], sizes[j], iov[j]))
    && (forall j, k :: 0 <= j < k < i ==> bufs[j].buf != bufs[k].buf)
  }

  predicate Holds(h: Heap, p: nat, b: Block) {
    p in h && h[p] == b
  }

  predicate BufferFills(h: Heap, b: Buffer, size: nat, v: Input)
    requires v.base.Some? ==> |v.base.value| == v.baseLen
  {
    RoomFor(h, b, size) && Fills(Segment(h[b.buf].bytes, size, b.len), v)
  }

  lemma FillingGoesOn(g: Heap, h: Heap, h': Heap, b: nat, z: nat, iov: seq<Input>, i: nat, p: nat)
    requires WellFormed(iov) && i < |iov| && b in h && z in h && h[b].Buffers? && h[z].Sizes?
    requires Filling(g, h, b, z, h[b].bufs, h[z].sizes, iov, i) && p !in h && p in h' && h'[p].Bytes?
    requires Fills(Segment(h'[p].bytes, Max(iov[i].len, iov[i].baseLen), iov[i].len), iov[i])
    requires h' == h[p := h'[p]][z := Sizes(h[z].sizes[i := Max(iov[i].len, iov[i].baseLen)])]
                    [b := Buffers(h[b].bufs[i := Buffer(iov[i].len, p)])]
    ensures Filling(g, h', b, z, h'[b].bufs, h'[z].sizes, iov, i + 1)
  {
    var bufs, bufs' := h[b].bufs, h'[b].bufs;
    assert bufs'[..i] == bufs[..i];
    assert BufsOf(bufs'[..i + 1]) == BufsOf(bufs'[..i]) + {p} by {
      assert bufs'[..i + 1] == bufs'[..i] + [bufs'[i]];
      BufsOfSnoc(bufs'[..i], bufs'[i]);
    }
    forall j | 0 <= j < i
      ensures bufs'[j] == bufs[j] && BufferFills(h', bufs[j], h[z].sizes[j], iov[j]) && bufs[j].buf != p
    {
      assert BufferFills(h, bufs[j], h[z].sizes[j], iov[j]);
    }
  }

  lemma BufsOfSnoc(bufs: seq<Buffer>, x: Buffer)
    ensures BufsOf(bufs + [x]) == BufsOf(bufs) + {x.buf}
  {
    var all := bufs + [x];
    forall i | 0 <= i < |bufs|
      ensures bufs[i].buf in BufsOf(all)
    {
      assert all[i] == bufs[i];
    }
    assert all[|bufs|] == x;
  }

  lemma FillingIsDone(g: Heap, h: Heap, b: nat, z: nat, iov: seq<Input>)
    requires WellFormed(iov) && |iov| > 0 && b in h && z in h && h[b].Buffers? && h[z].Sizes?
    requires Filling(g, h, b, z, h[b].bufs, h[z].sizes, iov, |iov|)
    ensures var r := Record(b, z, |iov|);
            && Sound(h, r) && AllFill(Data(h, r), iov)
            && h.Keys == g.Keys + Foot(h, r) && Foot(h, r) !! g.Keys
  {
    var bufs := h[b].bufs;
    assert bufs[..|iov|] == bufs;
    forall i | 0 <= i < |iov|
      ensures RoomFor(h, bufs[i], h[z].sizes[i])
    {
      assert BufferFills(h, bufs[i], h[z].sizes[i], iov[i]);
    }
    assert Sound(h, Record(b, z, |iov|));
  }

  /** The buffers of `o` have become the vectors of a reply at `val`, with the data they hold. */
  ghost predicate Moved(h: Heap, o: Record, h': Heap, val: nat)
    requires Sound(h, o)
  {
    && val !in h && ReplySound(h', val) && ReplyData(h', val) == Data(h, o)
    && ReplyFoot(h', val) == Foot(h, o) - {o.buffers, o.sizes} + {val}
    && h'.Keys == h.Keys - {o.buffers, o.sizes} + {val}
    && Same(h, h', h.Keys - {o.buffers, o.sizes})
  }

  lemma VectorsTakeOver(h: Heap, o: Record, h': Heap, val: nat, vs: seq<Vector>)
    requires Sound(h, o) && o != EMPTY && val !in h && |vs| == o.bufnum
    requires forall j :: 0 <= j < o.bufnum ==>
               vs[j] == Vector(h[o.buffers].bufs[j].buf, h[o.sizes].sizes[j], h[o.buffers].bufs[j].len)
    requires h' == Minus(Minus(h[val := Vectors(vs)], {o.buffers}), {o.sizes})
    ensures Moved(h, o, h', val)
  {
    var bufs := h[o.buffers].bufs;
    forall j | 0 <= j < o.bufnum
      ensures vs[j].base in h' && h'[vs[j].base] == h[bufs[j].buf] && h'[vs[j].base].Bytes?
    {
      assert RoomFor(h, bufs[j], h[o.sizes].sizes[j]);
    }
    assert BasesOf(vs) == BufsOf(bufs);
    assert ReplySound(h', val);
  }

  /** The data which Windows may write to the buffers. */
  predicate FitsIn(data: seq<seq<byte>>, xs: seq<Segment>) {
    |data| <= |xs| && forall i :: 0 <= i < |data| ==> |data[i]| <= xs[i].len
  }

  /** The buffers with data at their beginnings. */
  function Received(xs: seq<Segment>, data: seq<seq<byte>>): (r: seq<Segment>)
    requires |data| <= |xs| && forall i :: 0 <= i < |data| ==> |data[i]| <= |xs[i].bytes|
  {
    seq(|xs|, i requires 0 <= i < |xs| =>
      if i < |data| then xs[i].(bytes := data[i] + xs[i].bytes[|data[i]|..]) else xs[i])
  }

  predicate PartlyReceived(h: Heap, g: Heap, bufs: seq<Buffer>, data: seq<seq<byte>>, i: nat)
    requires i <= |data| <= |bufs|
  {
    && g.Keys == h.Keys && Same(h, g, h.Keys - BufsOf(bufs[..i]))
    && (forall j :: i <= j < |bufs| ==> bufs[j].buf in h && Holds(g, bufs[j].buf, h[bufs[j].buf]))
    && (forall j :: 0 <= j < i ==> HasReceived(h, g, bufs[j].buf, data[j]))
  }

  predicate HasReceived(h: Heap, g: Heap, p: nat, data: seq<byte>) {
    && p in h && p in g && h[p].Bytes? && g[p].Bytes? && |data| <= |h[p].bytes|
    && g[p].bytes == data + h[p].bytes[|data|..]
  }

  lemma ReceivingIsDone(h: Heap, g: Heap, o: Record, data: seq<seq<byte>>)
    requires Sound(h, o) && o != EMPTY && FitsIn(data, Data(h, o))
    requires PartlyReceived(h, g, h[o.buffers].bufs, data, |data|)
    ensures forall i :: 0 <= i < |data| ==> |data[i]| <= |Data(h, o)[i].bytes|
    ensures Sound(g, o) && Foot(g, o) == Foot(h, o) && Data(g, o) == Received(Data(h, o), data)
    ensures Same(h, g, h.Keys - Foot(h, o))
  {
    var bufs := h[o.buffers].bufs;
    forall i | 0 <= i < o.bufnum
      ensures RoomFor(g, bufs[i], h[o.sizes].sizes[i]) && |Data(h, o)[i].bytes| == h[o.sizes].sizes[i] + 1
      ensures i < |data| ==> |data[i]| <= |Data(h, o)[i].bytes|
    {
      assert RoomFor(h, bufs[i], h[o.sizes].sizes[i]);
      if i < |data| {
        assert HasReceived(h, g, bufs[i].buf, data[i]);
      }
    }
    forall p | p in h && p !in BufsOf(bufs)
      ensures p in g && g[p] == h[p]
    {
      assert BufsOf(bufs[..|data|]) <= BufsOf(bufs);
    }
    assert Holds(g, o.buffers, h[o.buffers]) && Holds(g, o.sizes, h[o.sizes]);
    assert Sound(g, o);
  }
}
