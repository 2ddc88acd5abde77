/** What bpf/tc_delay.c does to the traffic of an interface, as a state machine.

    The state is what the maps of the program mean between two frames: the
    number of frames to wait and the frame which is held back, if any.
 */
module FrameDelay {
  import opened Wrappers

  type u32 = x: int | 0 <= x < 0x1_0000_0000

  type Frame = seq<bv8>

  /** TC_DELAY_FRAME_SIZE and FRAME_SAVE_CHUNK_SIZE. */
  datatype Config = Config(size: nat, chunk: nat) {
    predicate Valid() {
      chunk > 0
    }

    /** FRAME_SAVE_CHUNKS_NUM, which is also the key of the last chunk. */
    function Chunks(): nat
      requires Valid()
    {
      size / chunk
    }
  }

  datatype State = State(delay: u32, held: Option<Frame>)

  /** How the kernel helpers answer one invocation: whether the lookups of the flag, of the delay
      and of the interface succeed, which chunks cannot be loaded or stored, whether the frame
      can be cloned and resized; and what the user writes while the clone is being sent. */
  datatype Helpers = Helpers(flag: bool, delay: bool, ifindex: bool, loadFails: set<nat>, storeFails: set<nat>,
                             clone: bool, resize: bool, written: Option<u32>) {
    predicate Found() {
      flag && delay && ifindex
    }

    predicate Loads(c: Config)
      requires c.Valid()
    {
      forall k :: 0 <= k <= c.Chunks() ==> k !in loadFails
    }

    predicate Stores(c: Config)
      requires c.Valid()
    {
      forall k :: 0 <= k <= c.Chunks() ==> k !in storeFails
    }
  }

  datatype Verdict = Pass | Shot | Redirect

  /** `clones` left during the invocation; `data` is what the frame is if it goes on. */
  datatype Outcome = Outcome(state: State, verdict: Verdict, clones: seq<Frame>, data: Frame)

  function Written(s: State, w: Option<u32>): State {
    if w.Some? then s.(delay := w.value) else s
  }

  /** bpf_skb_change_tail(): cut or filled up with zeroes. */
  function Resized(f: Frame, size: nat): (r: Frame)
    ensures |r| == size
  {
    if |f| >= size then f[..size] else f + seq(size - |f|, _ => 0)
  }

  /** One invocation which is not for the clone of a frame. */
  function Handle(c: Config, s: State, f: Frame, h: Helpers): Outcome
    requires c.Valid()
  {
    if !h.Found() || (s.delay == 0 && s.held.None?) then
      Outcome(s, Pass, [], f)
    else if s.held.None? then
      if |f| == c.size && h.Loads(c) then Outcome(State(s.delay - 1, Some(f)), Shot, [], f)
      else Outcome(s, Pass, [], f)
    else if s.delay != 0 then
      Outcome(s.(delay := s.delay - 1), Pass, [], f)
    else
      var clones := if h.clone then [f] else [];
      var s' := Written(s, h.written);
      var room := if h.resize then Resized(f, c.size) else f;
      if |room| >= c.size && h.Stores(c) then
        Outcome(s'.(held := None), Redirect, clones, s.held.value + room[c.size..])
      else
        Outcome(s', Shot, clones, f)
  }

  /** A frame on its way out: one which arrived now, or the one which was held. */
  datatype Out = Through(frame: Frame) | Back(frame: Frame)

  /** What happens around one arriving frame. On an egress interface a redirected frame passes
      the program again, before which the user may write the delay once more. */
  datatype Circumstances = Circumstances(first: Helpers, egress: bool, written: Option<u32>, second: Helpers)

  datatype Event = Write(delay: u32) | Arrive(frame: Frame, around: Circumstances)

  datatype After = After(state: State, wire: seq<Out>)

  function Sent(clones: seq<Frame>): (r: seq<Out>)
    ensures |r| == |clones|
  {
    seq(|clones|, i requires 0 <= i < |clones| => Through(clones[i]))
  }

  function Step(c: Config, s: State, e: Event): After
    requires c.Valid()
  {
    match e
    case Write(n) => After(s.(delay := n), [])
    case Arrive(f, a) =>
      var o := Handle(c, s, f, a.first);
      match o.verdict
      case Pass => After(o.state, Sent(o.clones) + [Through(o.data)])
      case Shot => After(o.state, Sent(o.clones))
      case Redirect =>
        if a.egress then
          var o2 := Handle(c, Written(o.state, a.written), o.data, a.second);
          After(o2.state, Sent(o.clones) + if o2.verdict.Pass? then [Back(o2.data)] else [])
        else
          After(Written(o.state, a.written), Sent(o.clones) + [Back(o.data)])
  }

  function Run(c: Config, s: State, es: seq<Event>): After
    requires c.Valid()
    decreases |es|
  {
    if es == [] then After(s, [])
    else
      var first := Step(c, s, es[0]);
      var rest := Run(c, first.state, es[1..]);
      After(rest.state, first.wire + rest.wire)
  }
}
