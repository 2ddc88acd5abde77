/** Whole runs of bpf/tc_delay.c: order, conservation and displacement of the frames. */
module FrameDelayRuns {
  import opened Wrappers
  import opened FrameDelay

  function HeldFrames(s: State): seq<Frame> {
    if s.held.Some? then [s.held.value] else []
  }

  function Received(es: seq<Event>): seq<Frame> {
    if es == [] then []
    else (if es[0].Arrive? then [es[0].frame] else []) + Received(es[1..])
  }

  /** The frame is kept back when it arrives. */
  predicate Kept(c: Config, s: State, e: Event)
    requires c.Valid()
  {
    e.Arrive? && s.held.None? && Handle(c, s, e.frame, e.around.first).verdict.Shot?
  }

  /** The received frames which are kept back, or those which are not. */
  function Sifted(c: Config, s: State, es: seq<Event>, kept: bool): seq<Frame>
    requires c.Valid()
    decreases |es|
  {
    if es == [] then []
    else
      (if es[0].Arrive? && Kept(c, s, es[0]) == kept then [es[0].frame] else [])
      + Sifted(c, Step(c, s, es[0]).state, es[1..], kept)
  }

  function Frames(wire: seq<Out>): seq<Frame> {
    if wire == [] then [] else [wire[0].frame] + Frames(wire[1..])
  }

  /** The frames on the wire which had been held, or those which had not. */
  function Sorted(wire: seq<Out>, back: bool): seq<Frame> {
    if wire == [] then []
    else (if wire[0].Back? == back then [wire[0].frame] else []) + Sorted(wire[1..], back)
  }

  /** The held frame is to be sent now. */
  predicate Releasing(s: State, h: Helpers) {
    h.Found() && s.held.Some? && s.delay == 0
  }

  /** The held frame is sent with the end of the current one behind it. */
  predicate Trails(c: Config, s: State, e: Event)
    requires c.Valid()
  {
    && e.Arrive? && Releasing(s, e.around.first)
    && !e.around.first.resize && |e.frame| > c.size && e.around.first.Stores(c)
  }

  /** The current frame is lost, as it is overwritten without having been cloned. */
  predicate Loses(s: State, e: Event) {
    e.Arrive? && Releasing(s, e.around.first) && !e.around.first.clone
  }

  predicate Harmless(c: Config, s: State, es: seq<Event>)
    requires c.Valid()
    decreases |es|
  {
    es != [] ==> !Trails(c, s, es[0]) && !Loses(s, es[0]) && Harmless(c, Step(c, s, es[0]).state, es[1..])
  }

  /** A held frame is a complete one. */
  predicate Complete(c: Config, s: State) {
    s.held.Some? ==> |s.held.value| == c.size
  }

  lemma StepKeepsComplete(c: Config, s: State, e: Event)
    requires c.Valid() && Complete(c, s)
    ensures Complete(c, Step(c, s, e).state)
  {
  }

  lemma {:induction false} SortedConcat(a: seq<Out>, b: seq<Out>, back: bool)
    ensures Sorted(a + b, back) == Sorted(a, back) + Sorted(b, back)
  {
    if a == [] {
      assert a + b == b;
    } else {
      SortedConcat(a[1..], b, back);
      assert (a + b)[1..] == a[1..] + b;
      var x := if a[0].Back? == back then [a[0].frame] else [];
      assert x + (Sorted(a[1..], back) + Sorted(b, back)) == (x + Sorted(a[1..], back)) + Sorted(b, back);
    }
  }

  lemma {:induction false} FramesConcat(a: seq<Out>, b: seq<Out>)
    ensures Frames(a + b) == Frames(a) + Frames(b)
  {
    if a == [] {
      assert a + b == b;
    } else {
      FramesConcat(a[1..], b);
      assert (a + b)[1..] == a[1..] + b;
      assert [a[0].frame] + (Frames(a[1..]) + Frames(b)) == ([a[0].frame] + Frames(a[1..])) + Frames(b);
    }
  }

  lemma SortedFew(x: Out, y: Out, back: bool)
    ensures Sorted([x], back) == if x.Back? == back then [x.frame] else []
    ensures Sorted([x, y], back) == Sorted([x], back) + Sorted([y], back)
  {
    SortedConcat([x], [y], back);
    assert [x][1..] == [] && [x] + [y] == [x, y];
  }

  /** A frame which does not make the held one go is kept or passes. */
  lemma QuietArrival(c: Config, s: State, e: Event)
    requires c.Valid() && e.Arrive? && !Releasing(s, e.around.first)
    ensures var r := Step(c, s, e);
            if Kept(c, s, e) then r.wire == [] && s.held.None? && r.state.held == Some(e.frame)
            else r.wire == [Through(e.frame)] && r.state.held == s.held
  {
  }

  /** The held frame follows the current one, unless it is held again. */
  lemma ReleasingArrival(c: Config, s: State, e: Event)
    requires c.Valid() && Complete(c, s) && e.Arrive?
             && Releasing(s, e.around.first) && !Trails(c, s, e) && !Loses(s, e)
    ensures var r := Step(c, s, e);
            if r.state.held.Some? then r.state.held == s.held && r.wire == [Through(e.frame)]
            else r.wire == [Through(e.frame), Back(s.held.value)]
  {
    var o := Handle(c, s, e.frame, e.around.first);
    assert Sent(o.clones) == [Through(e.frame)];
    if o.verdict.Redirect? {
      assert o.data[c.size..] == [] && o.data == s.held.value;
    }
  }

  /** The last value the user wrote, `d` if there was none. */
  function Rewritten(d: u32, w: Option<u32>): u32 {
    if w.Some? then w.value else d
  }

  /** The counter after an arrival: it counts down for a frame which is taken and for each frame which
      passes while one is held. A release leaves it at what the user has written meanwhile, unless
      the frame which is sent is taken at once on its second pass. */
  lemma CounterAfter(c: Config, s: State, e: Event)
    requires c.Valid() && Complete(c, s) && e.Arrive?
    ensures var a, d, d' := e.around, s.delay, Step(c, s, e).state.delay;
            if !Releasing(s, a.first) then
              d' == if d > 0 && (Kept(c, s, e) || (s.held.Some? && a.first.Found())) then d - 1 else d
            else if !a.first.Stores(c) || (!a.first.resize && |e.frame| < c.size) then
              d' == Rewritten(0, a.first.written)
            else
              var w := Rewritten(Rewritten(0, a.first.written), a.written);
              var taken := a.egress && !Trails(c, s, e) && w > 0 && a.second.Found() && a.second.Loads(c);
              d' == if taken then w - 1 else w
  {
  }

  /** One step: what goes through and what comes back. */
  lemma StepSorts(c: Config, s: State, e: Event)
    requires c.Valid() && Complete(c, s) && !Trails(c, s, e) && !Loses(s, e)
    ensures var r := Step(c, s, e);
            && Sorted(r.wire, false) == (if e.Arrive? && !Kept(c, s, e) then [e.frame] else [])
            && HeldFrames(s) + (if Kept(c, s, e) then [e.frame] else []) == Sorted(r.wire, true) + HeldFrames(r.state)
  {
    if e.Arrive? {
      var x := Through(e.frame);
      if Releasing(s, e.around.first) {
        ReleasingArrival(c, s, e);
        SortedFew(x, Back(s.held.value), false);
        SortedFew(x, Back(s.held.value), true);
        SortedFew(Back(s.held.value), x, false);
        SortedFew(Back(s.held.value), x, true);
      } else {
        QuietArrival(c, s, e);
        SortedFew(x, x, false);
        SortedFew(x, x, true);
      }
    }
  }

  /** Two accounts which share their middle make one. */
  lemma Chained<T>(h: seq<T>, k: seq<T>, a: seq<T>, m: seq<T>, t: seq<T>, b: seq<T>, z: seq<T>)
    requires h + k == a + m && m + t == b + z
    ensures h + (k + t) == (a + b) + z
  {
    calc {
      h + (k + t);
      (h + k) + t;
      (a + m) + t;
      a + (m + t);
      a + (b + z);
      (a + b) + z;
    }
  }

  /** Frames which were never held keep their order. */
  lemma {:induction false} RunKeepsOrder(c: Config, s: State, es: seq<Event>)
    requires c.Valid() && Complete(c, s) && Harmless(c, s, es)
    ensures Sorted(Run(c, s, es).wire, false) == Sifted(c, s, es, false)
    decreases |es|
  {
    if es == [] {
    } else {
      var first := Step(c, s, es[0]);
      StepKeepsComplete(c, s, es[0]);
      StepSorts(c, s, es[0]);
      RunKeepsOrder(c, first.state, es[1..]);
      SortedConcat(first.wire, Run(c, first.state, es[1..]).wire, false);
    }
  }

  /** The held frames come back in the order in which they were taken, the last one possibly
      still being held. */
  lemma {:induction false} RunReturnsHeld(c: Config, s: State, es: seq<Event>)
    requires c.Valid() && Complete(c, s) && Harmless(c, s, es)
    ensures var r := Run(c, s, es);
            && Complete(c, r.state)
            && HeldFrames(s) + Sifted(c, s, es, true) == Sorted(r.wire, true) + HeldFrames(r.state)
    decreases |es|
  {
    if es == [] {
      assert HeldFrames(s) + [] == [] + HeldFrames(s);
    } else {
      var first := Step(c, s, es[0]);
      var rest := Run(c, first.state, es[1..]);
      StepKeepsComplete(c, s, es[0]);
      StepSorts(c, s, es[0]);
      RunReturnsHeld(c, first.state, es[1..]);
      SortedConcat(first.wire, rest.wire, true);
      Chained(HeldFrames(s), if Kept(c, s, es[0]) then [es[0].frame] else [], Sorted(first.wire, true),
              HeldFrames(first.state), Sifted(c, first.state, es[1..], true), Sorted(rest.wire, true),
              HeldFrames(rest.state));
    }
  }

  // Conservation

  /** Nothing is lost, nothing is made up: what is received or was held is sent or is held. */
  ghost predicate Conserved(c: Config, s: State, es: seq<Event>)
    requires c.Valid()
  {
    var r := Run(c, s, es);
    multiset(Received(es)) + multiset(HeldFrames(s)) == multiset(Frames(r.wire)) + multiset(HeldFrames(r.state))
  }

  /** The number of frames, or of bytes. */
  function Total(fs: seq<Frame>, bytes: bool): nat {
    if fs == [] then 0 else (if bytes then |fs[0]| else 1) + Total(fs[1..], bytes)
  }

  lemma {:induction false} TotalConcat(a: seq<Frame>, b: seq<Frame>, bytes: bool)
    ensures Total(a + b, bytes) == Total(a, bytes) + Total(b, bytes)
  {
    if a == [] {
      assert a + b == b;
    } else {
      TotalConcat(a[1..], b, bytes);
      assert (a + b)[0] == a[0] && (a + b)[1..] == a[1..] + b;
    }
  }

  /** The total does not depend on the order. */
  lemma {:induction false} TotalOfMultiset(a: seq<Frame>, b: seq<Frame>, bytes: bool)
    requires multiset(a) == multiset(b)
    ensures Total(a, bytes) == Total(b, bytes)
    decreases |a|
  {
    if a == [] {
      assert |b| == |multiset(b)| == 0;
    } else {
      assert a[0] in multiset(b);
      var i :| 0 <= i < |b| && b[i] == a[0];
      Taken(a, 0);
      Taken(b, i);
      TotalOfMultiset(a[1..], b[..i] + b[i + 1..], bytes);
      TotalWithout(b, i, bytes);
    }
  }

  lemma TotalWithout(s: seq<Frame>, i: nat, bytes: bool)
    requires i < |s|
    ensures Total(s, bytes) == Total([s[i]], bytes) + Total(s[..i] + s[i + 1..], bytes)
  {
    Taken(s, i);
    TotalConcat(s[..i], [s[i]] + s[i + 1..], bytes);
    TotalConcat([s[i]], s[i + 1..], bytes);
    TotalConcat(s[..i], s[i + 1..], bytes);
  }

  lemma Taken(s: seq<Frame>, i: nat)
    requires i < |s|
    ensures s == s[..i] + ([s[i]] + s[i + 1..])
    ensures multiset(s[..i] + s[i + 1..]) == multiset(s) - multiset{s[i]}
    ensures i == 0 ==> s[..i] + s[i + 1..] == s[1..]
  {
    assert s == s[..i] + ([s[i]] + s[i + 1..]);
  }

  /** Frames lost in a run. */
  function Losses(c: Config, s: State, es: seq<Event>): nat
    requires c.Valid()
    decreases |es|
  {
    if es == [] then 0
    else (if Loses(s, es[0]) then 1 else 0) + Losses(c, Step(c, s, es[0]).state, es[1..])
  }

  /** Bytes of the frames lost in a run. */
  function LostBytes(c: Config, s: State, es: seq<Event>): nat
    requires c.Valid()
    decreases |es|
  {
    if es == [] then 0
    else (if Loses(s, es[0]) then |es[0].frame| else 0) + LostBytes(c, Step(c, s, es[0]).state, es[1..])
  }

  lemma {:induction false} NoLossesNoBytes(c: Config, s: State, es: seq<Event>)
    requires c.Valid() && Losses(c, s, es) == 0
    ensures LostBytes(c, s, es) == 0
    decreases |es|
  {
    if es == [] {
    } else {
      NoLossesNoBytes(c, Step(c, s, es[0]).state, es[1..]);
    }
  }

  /** Bytes trailing behind held frames in a run. */
  function Trailing(c: Config, s: State, es: seq<Event>): nat
    requires c.Valid()
    decreases |es|
  {
    if es == [] then 0
    else (if Trails(c, s, es[0]) then |es[0].frame| - c.size else 0) + Trailing(c, Step(c, s, es[0]).state, es[1..])
  }

  lemma {:induction false} HarmlessInNumbers(c: Config, s: State, es: seq<Event>)
    requires c.Valid()
    ensures Harmless(c, s, es) <==> Losses(c, s, es) == 0 && Trailing(c, s, es) == 0
    decreases |es|
  {
    if es == [] {
    } else {
      HarmlessInNumbers(c, Step(c, s, es[0]).state, es[1..]);
    }
  }

  /** Frames, or bytes, which a step takes from the outside or from the map. */
  function TakenBy(s: State, e: Event, bytes: bool): nat {
    Total(Received([e]), bytes) + Total(HeldFrames(s), bytes)
  }

  /** Frames, or bytes, which a result gives to the wire or to the map. */
  function GivenBy(r: After, bytes: bool): nat {
    Total(Frames(r.wire), bytes) + Total(HeldFrames(r.state), bytes)
  }

  lemma StepBalance(c: Config, s: State, e: Event, bytes: bool)
    requires c.Valid() && Complete(c, s)
    ensures !bytes ==> TakenBy(s, e, bytes) == GivenBy(Step(c, s, e), bytes) + (if Loses(s, e) then 1 else 0)
    ensures bytes ==> TakenBy(s, e, bytes) + (if Trails(c, s, e) then |e.frame| - c.size else 0)
                      == GivenBy(Step(c, s, e), bytes) + (if Loses(s, e) then |e.frame| else 0)
  {
    assert Received([e]) == (if e.Arrive? then [e.frame] else []) by { assert [e][1..] == []; }
    if e.Arrive? {
      var o := Handle(c, s, e.frame, e.around.first);
      if Releasing(s, e.around.first) {
        ReleaseBalance(c, s, e, bytes);
      } else {
        assert Step(c, s, e).wire == if Kept(c, s, e) then [] else [Through(e.frame)];
        assert Frames(Step(c, s, e).wire) == if Kept(c, s, e) then [] else [e.frame];
      }
    }
  }

  /** What leaves when the held frame is to be sent: the clone, if there is one, and the held frame
      with what trails behind it, unless it stays or is held again. */
  lemma ReleaseSends(c: Config, s: State, e: Event)
    requires c.Valid() && Complete(c, s) && e.Arrive? && Releasing(s, e.around.first)
    ensures var r := Step(c, s, e);
            var first := if Loses(s, e) then [] else [Through(e.frame)];
            if r.state.held.Some? && r.wire == first then
              |r.state.held.value| == c.size && !Trails(c, s, e)
            else
              && r.state.held.None? && r.wire == first + [Back(r.wire[|r.wire| - 1].frame)]
              && |r.wire[|r.wire| - 1].frame| == c.size + if Trails(c, s, e) then |e.frame| - c.size else 0
  {
    var o := Handle(c, s, e.frame, e.around.first);
    assert Sent(o.clones) == if Loses(s, e) then [] else [Through(e.frame)];
  }

  lemma ReleaseBalance(c: Config, s: State, e: Event, bytes: bool)
    requires c.Valid() && Complete(c, s) && e.Arrive? && Releasing(s, e.around.first)
    ensures Total(Frames(Step(c, s, e).wire), bytes) + Total(HeldFrames(Step(c, s, e).state), bytes)
         == (if Loses(s, e) then 0 else Total([e.frame], bytes)) + Total(HeldFrames(s), bytes)
          + (if Trails(c, s, e) && bytes then |e.frame| - c.size else 0)
  {
    var r := Step(c, s, e);
    var first := if Loses(s, e) then [] else [Through(e.frame)];
    ReleaseSends(c, s, e);
    if !(r.state.held.Some? && r.wire == first) {
      var last := r.wire[|r.wire| - 1].frame;
      FramesConcat(first, [Back(last)]);
      TotalConcat(Frames(first), [last], bytes);
    }
  }

  /** Every loss leaves a run one frame short. */
  lemma {:induction false} RunCount(c: Config, s: State, es: seq<Event>)
    requires c.Valid() && Complete(c, s)
    ensures Total(Received(es), false) + Total(HeldFrames(s), false)
         == GivenBy(Run(c, s, es), false) + Losses(c, s, es)
    decreases |es|
  {
    if es == [] {
    } else {
      var first := Step(c, s, es[0]);
      var rest := Run(c, first.state, es[1..]);
      StepKeepsComplete(c, s, es[0]);
      StepBalance(c, s, es[0], false);
      ReceivedFirst(es, false);
      RunCount(c, first.state, es[1..]);
      FramesConcat(first.wire, rest.wire);
      TotalConcat(Frames(first.wire), Frames(rest.wire), false);
    }
  }

  /** A run sends as many bytes too many as trail behind held frames, and too few as lost frames had. */
  lemma {:induction false} RunBytes(c: Config, s: State, es: seq<Event>)
    requires c.Valid() && Complete(c, s)
    ensures Total(Received(es), true) + Total(HeldFrames(s), true) + Trailing(c, s, es)
         == GivenBy(Run(c, s, es), true) + LostBytes(c, s, es)
    decreases |es|
  {
    if es == [] {
    } else {
      var first := Step(c, s, es[0]);
      var rest := Run(c, first.state, es[1..]);
      StepKeepsComplete(c, s, es[0]);
      StepBalance(c, s, es[0], true);
      ReceivedFirst(es, true);
      RunBytes(c, first.state, es[1..]);
      FramesConcat(first.wire, rest.wire);
      TotalConcat(Frames(first.wire), Frames(rest.wire), true);
    }
  }

  lemma ReceivedFirst(es: seq<Event>, bytes: bool)
    requires es != []
    ensures Received(es) == Received([es[0]]) + Received(es[1..])
    ensures Total(Received(es), bytes) == Total(Received([es[0]]), bytes) + Total(Received(es[1..]), bytes)
  {
    assert [es[0]][1..] == [];
    TotalConcat(Received([es[0]]), Received(es[1..]), bytes);
  }

  lemma {:induction false} OrderedMultiset(c: Config, s: State, es: seq<Event>)
    requires c.Valid()
    ensures multiset(Received(es)) == multiset(Sifted(c, s, es, true)) + multiset(Sifted(c, s, es, false))
    decreases |es|
  {
    if es == [] {
    } else {
      OrderedMultiset(c, Step(c, s, es[0]).state, es[1..]);
    }
  }

  lemma {:induction false} SortedMultiset(wire: seq<Out>)
    ensures multiset(Frames(wire)) == multiset(Sorted(wire, true)) + multiset(Sorted(wire, false))
  {
    if wire == [] {
    } else {
      SortedMultiset(wire[1..]);
    }
  }

  lemma SameTotals(a: seq<Frame>, h: seq<Frame>, b: seq<Frame>, k: seq<Frame>, bytes: bool)
    requires multiset(a) + multiset(h) == multiset(b) + multiset(k)
    ensures Total(a, bytes) + Total(h, bytes) == Total(b, bytes) + Total(k, bytes)
  {
    TotalOfMultiset(a + h, b + k, bytes);
    TotalConcat(a, h, bytes);
    TotalConcat(b, k, bytes);
  }

  lemma SameMultisets(h: seq<Frame>, k: seq<Frame>, t: seq<Frame>, b: seq<Frame>, z: seq<Frame>)
    requires h + k == b + z
    ensures multiset(k) + multiset(t) + multiset(h) == multiset(b) + multiset(t) + multiset(z)
  {
    assert multiset(h) + multiset(k) == multiset(h + k) == multiset(b + z) == multiset(b) + multiset(z);
    assert multiset(k) + multiset(t) + multiset(h) == (multiset(h) + multiset(k)) + multiset(t);
    assert multiset(b) + multiset(t) + multiset(z) == (multiset(b) + multiset(z)) + multiset(t);
  }

  lemma HarmlessConserves(c: Config, s: State, es: seq<Event>)
    requires c.Valid() && Complete(c, s) && Harmless(c, s, es)
    ensures Conserved(c, s, es)
  {
    var r := Run(c, s, es);
    RunKeepsOrder(c, s, es);
    RunReturnsHeld(c, s, es);
    OrderedMultiset(c, s, es);
    SortedMultiset(r.wire);
    SameMultisets(HeldFrames(s), Sifted(c, s, es, true), Sifted(c, s, es, false),
                  Sorted(r.wire, true), HeldFrames(r.state));
  }

  lemma ConservedIsHarmless(c: Config, s: State, es: seq<Event>)
    requires c.Valid() && Complete(c, s) && Conserved(c, s, es)
    ensures Harmless(c, s, es)
  {
    var r := Run(c, s, es);
    SameTotals(Received(es), HeldFrames(s), Frames(r.wire), HeldFrames(r.state), false);
    SameTotals(Received(es), HeldFrames(s), Frames(r.wire), HeldFrames(r.state), true);
    RunCount(c, s, es);
    NoLossesNoBytes(c, s, es);
    RunBytes(c, s, es);
    HarmlessInNumbers(c, s, es);
  }

  /** A run conserves the frames exactly when no step of it comes to release a held frame while
      the current one cannot be cloned, or is longer and cannot be cut. Failing lookups, loads and
      stores, user writes and second passes do no harm. */
  lemma ConservedIffHarmless(c: Config, s: State, es: seq<Event>)
    requires c.Valid() && Complete(c, s)
    ensures Conserved(c, s, es) <==> Harmless(c, s, es)
  {
    if Harmless(c, s, es) {
      HarmlessConserves(c, s, es);
    }
    if Conserved(c, s, es) {
      ConservedIsHarmless(c, s, es);
    }
  }

  // Displacement

  /** A frame arrives, and whatever the program needs for it works: lookups and loads for a frame to
      be held; the lookups while one is held; and the clone, the stores and, for a frame of another
      size, the cut when it is sent, while the user does not write. */
  predicate Works(c: Config, s: State, e: Event)
    requires c.Valid()
  {
    e.Arrive? && (
      var h := e.around.first;
      if s.held.None? then s.delay > 0 && |e.frame| == c.size ==> h.Found() && h.Loads(c)
      else h.Found() && (s.delay == 0 ==> Sends(c, e)))
  }

  predicate Sends(c: Config, e: Event)
    requires c.Valid() && e.Arrive?
  {
    var h := e.around.first;
    h.clone && h.Stores(c) && (h.resize || |e.frame| == c.size) && h.written == None && e.around.written == None
  }

  predicate AllWork(c: Config, s: State, es: seq<Event>)
    requires c.Valid()
    decreases |es|
  {
    es != [] ==> Works(c, s, es[0]) && AllWork(c, Step(c, s, es[0]).state, es[1..])
  }

  /** Where the first frame of the configured size is, |fs| if there is none. */
  function FirstFull(fs: seq<Frame>, size: nat): (p: nat)
    ensures p <= |fs| && (p < |fs| ==> |fs[p]| == size) && forall i :: 0 <= i < p ==> |fs[i]| != size
  {
    if fs == [] || |fs[0]| == size then 0 else 1 + FirstFull(fs[1..], size)
  }

  /** What is to come out if the first full frame is delayed by `n` frames. */
  function Displaced(fs: seq<Frame>, size: nat, n: nat): seq<Frame> {
    var p := FirstFull(fs, size);
    if p == |fs| then fs
    else
      var later := fs[p + 1..];
      if |later| < n then fs[..p] + later else fs[..p] + later[..n] + [fs[p]] + later[n..]
  }

  /** The state in which `fs` leaves the program if it was idle and `n` was written. */
  function Awaiting(fs: seq<Frame>, size: nat, n: u32): State
    requires n > 0
  {
    var p := FirstFull(fs, size);
    if p == |fs| then State(n, None)
    else if |fs| - p - 1 < n then State(n - 1 - (|fs| - p - 1), Some(fs[p]))
    else State(0, None)
  }

  /** An idle program lets everything pass and stays idle. */
  lemma {:induction false} IdleRun(c: Config, es: seq<Event>)
    requires c.Valid() && AllWork(c, State(0, None), es)
    ensures var r := Run(c, State(0, None), es);
            Frames(r.wire) == Received(es) && r.state == State(0, None) && |Received(es)| == |es|
    decreases |es|
  {
    if es == [] {
    } else {
      var e := es[0];
      IdleRun(c, es[1..]);
      assert Step(c, State(0, None), e).wire == [Through(e.frame)];
      FramesConcat([Through(e.frame)], Run(c, State(0, None), es[1..]).wire);
    }
  }

  /** What comes out while `held` is held for `d` more frames. */
  function Followed(fs: seq<Frame>, d: nat, held: Frame): seq<Frame> {
    if |fs| <= d then fs else fs[..d + 1] + [held] + fs[d + 1..]
  }

  lemma FollowedFirst(f: Frame, fs: seq<Frame>, d: nat, held: Frame)
    ensures d > 0 ==> Followed([f] + fs, d, held) == [f] + Followed(fs, d - 1, held)
    ensures d == 0 ==> Followed([f] + fs, d, held) == [f, held] + fs
  {
    var all := [f] + fs;
    if |all| > d {
      assert all[..d + 1] == [f] + fs[..d] && all[d + 1..] == fs[d..];
      if d > 0 {
        assert [f] + (fs[..d] + [held] + fs[d..]) == ([f] + fs[..d]) + [held] + fs[d..];
      }
    }
  }

  /** While a frame is held, `d` frames pass, the next one passes too and the held one follows. */
  lemma {:induction false} HeldRun(c: Config, d: u32, held: Frame, es: seq<Event>)
    requires c.Valid() && |held| == c.size && AllWork(c, State(d, Some(held)), es)
    ensures var r := Run(c, State(d, Some(held)), es);
            && |Received(es)| == |es| && Frames(r.wire) == Followed(Received(es), d, held)
            && r.state == if |es| <= d then State(d - |es|, Some(held)) else State(0, None)
    decreases |es|
  {
    if es == [] {
    } else {
      var e, fs := es[0], Received(es[1..]);
      var first := Step(c, State(d, Some(held)), e);
      var rest := Run(c, first.state, es[1..]);
      FramesConcat(first.wire, rest.wire);
      FollowedFirst(e.frame, fs, d, held);
      assert Received(es) == [e.frame] + fs;
      if d > 0 {
        assert first.wire == [Through(e.frame)];
        HeldRun(c, d - 1, held, es[1..]);
      } else {
        ReleaseSmoothly(c, held, e);
        IdleRun(c, es[1..]);
      }
    }
  }

  lemma ReleaseSmoothly(c: Config, held: Frame, e: Event)
    requires c.Valid() && |held| == c.size && Works(c, State(0, Some(held)), e)
    ensures Step(c, State(0, Some(held)), e) == After(State(0, None), [Through(e.frame), Back(held)])
    ensures Frames([Through(e.frame), Back(held)]) == [e.frame, held]
  {
    var o := Handle(c, State(0, Some(held)), e.frame, e.around.first);
    assert [Through(e.frame), Back(held)] == [Through(e.frame)] + [Back(held)];
    FramesConcat([Through(e.frame)], [Back(held)]);
    assert Resized(e.frame, c.size)[c.size..] == [];
    assert o == Outcome(State(0, None), Redirect, [e.frame], held);
    assert Sent(o.clones) == [Through(e.frame)];
  }

  /** If `n` is written while idle, the first full frame is sent right behind the `n`-th frame which
      arrives after it, all the others keep their places, and the program is idle again. */
  lemma {:induction false} DelayDisplaces(c: Config, n: u32, es: seq<Event>)
    requires c.Valid() && n > 0 && AllWork(c, State(n, None), es)
    ensures var r := Run(c, State(0, None), [Write(n)] + es);
            Frames(r.wire) == Displaced(Received(es), c.size, n) && r.state == Awaiting(Received(es), c.size, n)
  {
    assert ([Write(n)] + es)[1..] == es;
    WaitingRun(c, n, es);
    FramesConcat([], Run(c, State(n, None), es).wire);
  }

  /** The first full frame is held and sent later. */
  lemma WaitingIsOver(c: Config, n: u32, es: seq<Event>)
    requires c.Valid() && n > 0 && AllWork(c, State(n, None), es)
    requires es != [] && es[0].Arrive? && |es[0].frame| == c.size
    ensures var r := Run(c, State(n, None), es);
            Frames(r.wire) == Displaced(Received(es), c.size, n) && r.state == Awaiting(Received(es), c.size, n)
  {
    var e, fs := es[0], Received(es[1..]);
    assert Step(c, State(n, None), e) == After(State(n - 1, Some(e.frame)), []);
    HeldRun(c, n - 1, e.frame, es[1..]);
    var rest := Run(c, State(n - 1, Some(e.frame)), es[1..]);
    assert Run(c, State(n, None), es).wire == [] + rest.wire == rest.wire;
    assert Received(es) == [e.frame] + fs;
    DisplacedFull(e.frame, fs, c.size, n);
  }

  lemma {:induction false} WaitingRun(c: Config, n: u32, es: seq<Event>)
    requires c.Valid() && n > 0 && AllWork(c, State(n, None), es)
    ensures var r := Run(c, State(n, None), es);
            Frames(r.wire) == Displaced(Received(es), c.size, n) && r.state == Awaiting(Received(es), c.size, n)
    decreases |es|
  {
    if es == [] {
    } else if |es[0].frame| == c.size {
      WaitingIsOver(c, n, es);
    } else {
      var e, fs := es[0], Received(es[1..]);
      assert Step(c, State(n, None), e) == After(State(n, None), [Through(e.frame)]);
      WaitingRun(c, n, es[1..]);
      FramesConcat([Through(e.frame)], Run(c, State(n, None), es[1..]).wire);
      assert Received(es) == [e.frame] + fs;
      DisplacedFirst(e.frame, fs, c.size, n);
    }
  }

  lemma DisplacedFirst(f: Frame, fs: seq<Frame>, size: nat, n: u32)
    requires n > 0 && |f| != size
    ensures Displaced([f] + fs, size, n) == [f] + Displaced(fs, size, n)
    ensures Awaiting([f] + fs, size, n) == Awaiting(fs, size, n)
  {
    var all, p := [f] + fs, FirstFull(fs, size);
    assert all[1..] == fs;
    assert FirstFull(all, size) == p + 1;
    if p < |fs| {
      var later := fs[p + 1..];
      assert all[p + 2..] == later && all[..p + 1] == [f] + fs[..p] && all[p + 1] == fs[p];
      if |later| < n {
        assert [f] + (fs[..p] + later) == ([f] + fs[..p]) + later;
      } else {
        Prepended(f, fs[..p], later[..n], [fs[p]], later[n..]);
      }
    }
  }

  lemma Prepended(f: Frame, a: seq<Frame>, b: seq<Frame>, x: seq<Frame>, y: seq<Frame>)
    ensures [f] + (a + b + x + y) == ([f] + a) + b + x + y
  {
  }

  lemma DisplacedFull(f: Frame, fs: seq<Frame>, size: nat, n: u32)
    requires n > 0 && |f| == size
    ensures Displaced([f] + fs, size, n) == if |fs| < n then fs else fs[..n] + [f] + fs[n..]
    ensures Awaiting([f] + fs, size, n) == if |fs| < n then State(n - 1 - |fs|, Some(f)) else State(0, None)
  {
    var all := [f] + fs;
    assert FirstFull(all, size) == 0 && all[..0] == [] && all[1..] == fs;
  }
}
