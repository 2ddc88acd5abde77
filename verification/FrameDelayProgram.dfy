/** The program bpf/tc_delay.c itself: its maps, the chunked copy of a frame and the handler.
    Each call is proved to do what the state machine of `FrameDelay` does. */
module FrameDelayProgram {
  import opened Wrappers
  import opened FrameDelay
  import FrameDelayRuns

  /** The context of an invocation. */
  class Skb {
    var data: Frame

    constructor (data: Frame)
      ensures this.data == data
    {
      this.data := data;
    }
  }

  /** The first `k` chunks one after the other. */
  ghost function Joined(chunks: seq<Frame>, k: nat): Frame
    requires k <= |chunks|
  {
    if k == 0 then [] else Joined(chunks, k - 1) + chunks[k - 1]
  }

  lemma {:induction false} JoinedSame(a: seq<Frame>, b: seq<Frame>, k: nat)
    requires k <= |a| && k <= |b| && a[..k] == b[..k]
    ensures Joined(a, k) == Joined(b, k)
  {
    if k > 0 {
      assert a[..k - 1] == a[..k][..k - 1] == b[..k][..k - 1] == b[..k - 1];
      assert a[k - 1] == a[..k][k - 1] == b[k - 1];
      JoinedSame(a, b, k - 1);
    }
  }

  /** Where chunk `k` starts. */
  ghost function Offset(c: Config, k: nat): nat {
    if k == 0 then 0 else Offset(c, k - 1) + c.chunk
  }

  lemma {:induction false} OffsetIsProduct(c: Config, k: nat)
    ensures Offset(c, k) == k * c.chunk
  {
    if k > 0 {
      OffsetIsProduct(c, k - 1);
    }
  }

  /** The length of the last chunk, FRAME_SAVE_LAST_CHUNK_SIZE. */
  function Remainder(c: Config): (r: nat)
    requires c.Valid()
    ensures r < c.chunk && Offset(c, c.Chunks()) + r == c.size
  {
    OffsetIsProduct(c, c.Chunks());
    c.size % c.chunk
  }

  /** A chunk which is not the last one lies within the frame. */
  lemma {:induction false} ChunkFits(c: Config, i: nat)
    requires c.Valid() && i < c.Chunks()
    ensures Offset(c, i) + c.chunk <= c.size
    decreases c.Chunks() - i
  {
    var r := Remainder(c);
    if i + 1 < c.Chunks() {
      ChunkFits(c, i + 1);
    }
  }

  class Program {
    const c: Config
    var delay: u32
    var flag: nat
    var cloned: nat
    const pktbuf: array<Frame>
    /** The frames which have left so far. */
    var wire: seq<Frame>

    constructor (c: Config)
      requires c.Valid()
      ensures Valid() && Abs() == State(0, None) && cloned == 0 && wire == []
    {
      this.c := c;
      delay, flag, cloned, wire := 0, 0, 0, [];
      pktbuf := new Frame[c.Chunks() + 1](_ => seq(c.chunk, _ => 0));
    }

    ghost predicate Valid()
      reads this, pktbuf
    {
      && c.Valid() && pktbuf.Length == c.Chunks() + 1
      && forall k :: 0 <= k < pktbuf.Length ==> |pktbuf[k]| == c.chunk
    }

    /** The frame the chunks make up. */
    ghost function Saved(): Frame
      requires Valid()
      reads this, pktbuf
    {
      Joined(pktbuf[..], c.Chunks()) + pktbuf[c.Chunks()][..Remainder(c)]
    }

    ghost function Abs(): State
      requires Valid()
      reads this, pktbuf
    {
      State(delay, if flag != 0 then Some(Saved()) else None)
    }

    /** tc_delay_load_chunk(). A failed helper may leave anything in the chunk. */
    method LoadChunk(skb: Skb, key: nat, len: nat, h: Helpers) returns (rc: int)
      requires Valid() && len <= c.chunk
      modifies pktbuf
      ensures Valid()
      ensures rc == 0 <==> key <= c.Chunks() && key !in h.loadFails && Offset(c, key) + len <= |skb.data|
      ensures rc == 0 ==> pktbuf[key][..len] == skb.data[Offset(c, key)..Offset(c, key) + len]
      ensures forall k :: 0 <= k < pktbuf.Length && k != key ==> pktbuf[k] == old(pktbuf[k])
    {
      var offset := key * c.chunk;
      OffsetIsProduct(c, key);
      if key >= pktbuf.Length {
        return -1;
      }
      if key in h.loadFails || offset + len > |skb.data| {
        var junk: Frame := *;
        pktbuf[key] := if |junk| == c.chunk then junk else pktbuf[key];
        return -1;
      }
      pktbuf[key] := skb.data[offset..offset + len] + pktbuf[key][len..];
      return 0;
    }

    /** tc_delay_store_chunk(). */
    method StoreChunk(skb: Skb, key: nat, len: nat, h: Helpers) returns (rc: int)
      requires Valid() && len <= c.chunk
      modifies skb
      ensures rc == 0 <==> key <= c.Chunks() && key !in h.storeFails && Offset(c, key) + len <= |old(skb.data)|
      ensures |skb.data| == |old(skb.data)|
      ensures rc == 0 ==>
                skb.data == old(skb.data)[..Offset(c, key)] + pktbuf[key][..len] + old(skb.data)[Offset(c, key) + len..]
    {
      var offset := key * c.chunk;
      OffsetIsProduct(c, key);
      if key >= pktbuf.Length {
        return -1;
      }
      if key in h.storeFails || offset + len > |skb.data| {
        return -1;
      }
      skb.data := skb.data[..offset] + pktbuf[key][..len] + skb.data[offset + len..];
      return 0;
    }

    /** load_frame(): a complete frame is saved byte for byte, unless a chunk cannot be loaded. */
    method LoadFrame(skb: Skb, h: Helpers) returns (rc: int)
      requires Valid() && |skb.data| == c.size
      modifies pktbuf
      ensures Valid() && (rc == 0 <==> h.Loads(c))
      ensures rc == 0 ==> Saved() == skb.data
    {
      var i := 0;
      ghost var offset := 0;
      while i < c.Chunks()
        invariant 0 <= i <= c.Chunks() && Valid() && offset == Offset(c, i) <= c.size
        invariant forall k :: 0 <= k < i ==> k !in h.loadFails
        invariant Joined(pktbuf[..], i) == skb.data[..offset]
      {
        ghost var before := pktbuf[..];
        ChunkFits(c, i);
        rc := LoadChunk(skb, i, c.chunk, h);
        if rc != 0 {
          return -1;
        }
        JoinedSame(before, pktbuf[..], i);
        assert pktbuf[i] == skb.data[offset..offset + c.chunk];
        i := i + 1;
        offset := offset + c.chunk;
      }
      ghost var before := pktbuf[..];
      rc := LoadChunk(skb, i, Remainder(c), h);
      if rc != 0 {
        return -1;
      }
      JoinedSame(before, pktbuf[..], i);
      return 0;
    }

    /** store_frame(): the saved frame overwrites the beginning of the current one. */
    method StoreFrame(skb: Skb, h: Helpers) returns (rc: int)
      requires Valid()
      modifies skb
      ensures rc == 0 <==> h.Stores(c) && |old(skb.data)| >= c.size
      ensures rc == 0 ==> skb.data == Saved() + old(skb.data)[c.size..]
    {
      ghost var room, pieces := skb.data, pktbuf[..];
      var i := 0;
      ghost var offset := 0;
      while i < c.Chunks()
        invariant 0 <= i <= c.Chunks() && offset == Offset(c, i) <= c.size
        invariant forall k :: 0 <= k < i ==> k !in h.storeFails
        invariant Storing(pieces, i, offset, room, skb.data)
      {
        ChunkFits(c, i);
        ghost var before := skb.data;
        rc := StoreChunk(skb, i, c.chunk, h);
        if rc != 0 {
          return -1;
        }
        assert pieces[i][..c.chunk] == pieces[i];
        Overwritten(pieces, i, offset, room, before, pieces[i]);
        i := i + 1;
        offset := offset + c.chunk;
      }
      ghost var before := skb.data;
      rc := StoreChunk(skb, i, Remainder(c), h);
      if rc != 0 {
        return -1;
      }
      Overwritten(pieces, i, offset, room, before, pieces[i][..Remainder(c)]);
      return 0;
    }

    /** tc_delay(). If a clone is being sent, the frame is that clone and nothing happens to it. */
    method TcDelay(skb: Skb, h: Helpers, egress: bool) returns (v: Verdict)
      requires Valid()
      modifies this, pktbuf, skb
      ensures Valid()
      ensures old(cloned) != 0 ==>
                v == Pass && Abs() == old(Abs()) && cloned == old(cloned)
                && wire == old(wire) && skb.data == old(skb.data)
      ensures old(cloned) == 0 ==>
                var o := Handle(c, old(Abs()), old(skb.data), h);
                && Abs() == o.state && v == o.verdict && cloned == 0 && wire == old(wire) + o.clones
                && (v != Shot ==> skb.data == o.data)
      decreases if cloned == 0 then 1 else 0, 0
    {
      if cloned != 0 {
        return Pass;
      }
      if !h.flag || !h.delay {
        return Pass;
      }
      if delay == 0 && flag == 0 {
        return Pass;
      }
      if !h.ifindex {
        return Pass;
      }
      if delay != 0 && flag == 0 {
        if |skb.data| != c.size {
          return Pass;
        }
        var rc := LoadFrame(skb, h);
        if rc == 0 {
          flag := 1;
          delay := delay - 1;
          return Shot;
        }
      } else if delay != 0 && flag != 0 {
        delay := delay - 1;
      } else if delay == 0 && flag != 0 {
        cloned := 1;
        CloneRedirect(skb, h, egress);
        cloned := 0;
        ChangeTail(skb, h);
        var rc := StoreFrame(skb, h);
        if rc == 0 {
          flag := 0;
          return Redirect;
        } else {
          return Shot;
        }
      }
      return Pass;
    }

    /** bpf_clone_redirect(), during which an egress interface runs the program for the clone and
        the user may write the delay. */
    method CloneRedirect(skb: Skb, h: Helpers, egress: bool)
      requires Valid() && cloned != 0
      modifies this, pktbuf
      ensures Valid() && Abs() == Written(old(Abs()), h.written) && cloned == old(cloned)
      ensures wire == old(wire) + if h.clone then [skb.data] else []
      decreases 0, 1
    {
      if h.clone {
        var clone := new Skb(skb.data);
        var v := Pass;
        if egress {
          v := TcDelay(clone, h, egress);
        }
        if v == Pass {
          wire := wire + [clone.data];
        }
      }
      if h.written.Some? {
        delay := h.written.value;
      }
    }

    /** bpf_skb_change_tail(), whose result the program ignores. */
    method ChangeTail(skb: Skb, h: Helpers)
      modifies skb
      ensures skb.data == if h.resize then Resized(old(skb.data), c.size) else old(skb.data)
    {
      if h.resize {
        skb.data := Resized(skb.data, c.size);
      }
    }

    /** The kernel around the program: the fate of one arriving frame. */
    method Arrival(frame: Frame, a: Circumstances)
      requires Valid() && cloned == 0
      modifies this, pktbuf
      ensures Valid() && cloned == 0
      ensures var r := Step(c, old(Abs()), Arrive(frame, a));
              Abs() == r.state && wire == old(wire) + FrameDelayRuns.Frames(r.wire)
    {
      var skb := new Skb(frame);
      FramesOfArrival(c, Abs(), frame, a);
      var v := TcDelay(skb, a.first, a.egress);
      if v == Pass {
        wire := wire + [skb.data];
      } else if v == Redirect {
        Redirected(skb, a);
      }
    }

    /** A redirected frame, which passes the program once more on an egress interface. */
    method Redirected(skb: Skb, a: Circumstances)
      requires Valid() && cloned == 0
      modifies this, pktbuf, skb
      ensures Valid() && cloned == 0
      ensures var s, f := Written(old(Abs()), a.written), old(skb.data);
              var o := Handle(c, s, f, a.second);
              if a.egress
              then Abs() == o.state && wire == old(wire) + o.clones + (if o.verdict.Pass? then [o.data] else [])
              else Abs() == s && wire == old(wire) + [f]
    {
      if a.written.Some? {
        delay := a.written.value;
      }
      var v := Pass;
      if a.egress {
        v := TcDelay(skb, a.second, a.egress);
      }
      if v == Pass {
        wire := wire + [skb.data];
      }
    }

    method Happen(e: Event)
      requires Valid() && cloned == 0
      modifies this, pktbuf
      ensures Valid() && cloned == 0
      ensures var r := Step(c, old(Abs()), e);
              Abs() == r.state && wire == old(wire) + FrameDelayRuns.Frames(r.wire)
    {
      match e
      case Write(n) => delay := n;
      case Arrive(frame, a) => Arrival(frame, a);
    }

    /** A whole run of frames and user writes. */
    method Traffic(es: seq<Event>)
      requires Valid() && cloned == 0
      modifies this, pktbuf
      ensures Valid() && cloned == 0
      ensures var r := Run(c, old(Abs()), es);
              Abs() == r.state && wire == old(wire) + FrameDelayRuns.Frames(r.wire)
    {
      ghost var r := Run(c, Abs(), es);
      ghost var sent := wire + FrameDelayRuns.Frames(r.wire);
      assert es[0..] == es;
      for i := 0 to |es|
        invariant Valid() && cloned == 0
        invariant LeadsTo(c, Abs(), wire, es[i..], r.state, sent)
      {
        LeadsOn(c, Abs(), wire, es[i..], r.state, sent);
        assert es[i..][0] == es[i] && es[i..][1..] == es[i + 1..];
        Happen(es[i]);
      }
    }
  }

  /** From the state `s` on, when `wire` has left, the events `es` lead to the state `end` and to what
      has been sent then. */
  ghost predicate LeadsTo(c: Config, s: State, wire: seq<Frame>, es: seq<Event>, end: State, sent: seq<Frame>)
    requires c.Valid()
  {
    var r := Run(c, s, es);
    r.state == end && wire + FrameDelayRuns.Frames(r.wire) == sent
  }

  lemma LeadsOn(c: Config, s: State, wire: seq<Frame>, es: seq<Event>, end: State, sent: seq<Frame>)
    requires c.Valid() && es != [] && LeadsTo(c, s, wire, es, end, sent)
    ensures var first := Step(c, s, es[0]);
            LeadsTo(c, first.state, wire + FrameDelayRuns.Frames(first.wire), es[1..], end, sent)
  {
    var first := Step(c, s, es[0]);
    var rest := Run(c, first.state, es[1..]);
    FrameDelayRuns.FramesConcat(first.wire, rest.wire);
    Regrouped(wire, FrameDelayRuns.Frames(first.wire), FrameDelayRuns.Frames(rest.wire));
  }

  lemma Regrouped(a: seq<Frame>, b: seq<Frame>, c: seq<Frame>)
    ensures a + (b + c) == a + b + c
  {
  }

  /** What leaves around one arriving frame: the clones, and the frame itself if it goes on. */
  function Leaving(c: Config, s: State, frame: Frame, a: Circumstances): seq<Frame>
    requires c.Valid()
  {
    var o := Handle(c, s, frame, a.first);
    match o.verdict
    case Pass => o.clones + [o.data]
    case Shot => o.clones
    case Redirect =>
      if !a.egress then o.clones + [o.data]
      else
        var o2 := Handle(c, Written(o.state, a.written), o.data, a.second);
        o.clones + if o2.verdict.Pass? then [o2.data] else []
  }

  lemma FramesOfArrival(c: Config, s: State, frame: Frame, a: Circumstances)
    requires c.Valid()
    ensures FrameDelayRuns.Frames(Step(c, s, Arrive(frame, a)).wire) == Leaving(c, s, frame, a)
  {
    var o := Handle(c, s, frame, a.first);
    var wire := Step(c, s, Arrive(frame, a)).wire;
    FramesOfSent(o.clones);
    if |wire| > |o.clones| {
      var last := wire[|wire| - 1];
      assert wire == Sent(o.clones) + [last];
      FrameDelayRuns.FramesConcat(Sent(o.clones), [last]);
    } else {
      assert wire == Sent(o.clones);
    }
  }

  lemma {:induction false} FramesOfSent(clones: seq<Frame>)
    ensures FrameDelayRuns.Frames(Sent(clones)) == clones
  {
    if clones != [] {
      FramesOfSent(clones[1..]);
      assert Sent(clones)[1..] == Sent(clones[1..]);
    }
  }

  /** The first `i` chunks, `offset` bytes, are stored over the beginning of the frame `room`. */
  ghost predicate Storing(pieces: seq<Frame>, i: nat, offset: nat, room: Frame, data: Frame)
    requires i <= |pieces|
  {
    |Joined(pieces, i)| == offset <= |room| && data == Joined(pieces, i) + room[offset..]
  }

  lemma Overwritten(pieces: seq<Frame>, i: nat, offset: nat, room: Frame, data: Frame, piece: Frame)
    requires i <= |pieces| && Storing(pieces, i, offset, room, data) && offset + |piece| <= |room|
    ensures data[..offset] + piece + data[offset + |piece|..]
         == (Joined(pieces, i) + piece) + room[offset + |piece|..]
  {
  }
}
