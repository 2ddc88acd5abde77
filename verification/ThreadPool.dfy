/** The thread pool of agents/unix/main.c and agents/win32/win32.c as interleaved steps: callers of
    rcf_ch_start_thread() and the threads they start share the slots under one lock. */
module ThreadPool {
  import opened Wrappers

  const TA_MAX_THREADS := 16

  /** `call` is the starter whose routine and parameters are in the slot. */
  datatype Slot = Slot(active: bool, semCreated: bool, sem: nat, call: nat)

  datatype Reply = Started(slot: nat) | Failed | TooMany

  /** Where a caller of rcf_ch_start_thread() is; everything between `Waits for the lock` and the
      reply is done with the lock held. */
  datatype Starter =
    | Begin
    | Scan(i: nat)                        // looks at slot i
    | Create(i: nat)                      // has filled in slot i
    | Activate(i: nat, t: nat)            // has created thread t
    | Await(i: nat, t: nat)               // waits for the slot's semaphore
    | Unlock(reply: Reply)
    | Return(reply: Reply)

  datatype Phase = Running | Called | Loaded | Posted | Ended | Locked | Cleared | Gone

  /** A thread in rcf_ch_thread_wrapper(), created by a starter. It reads its routine and the
      parameters from the slot; then the routine posts the semaphore, exactly once. */
  datatype Thread = Thread(slot: nat, starter: nat, phase: Phase, routine: Option<nat>, params: Option<nat>)

  datatype Owner = Free | ByStarter(s: nat) | ByThread(t: nat)

  datatype Pool = Pool(lock: Owner, slots: seq<Slot>, starters: seq<Starter>, threads: seq<Thread>)

  /** The next step of a starter, in which a system call may fail, or of a thread. */
  datatype Action = Start(s: nat, works: bool) | Run(t: nat)

  predicate InLock(s: Starter) {
    !s.Begin? && !s.Return?
  }

  predicate Enabled(p: Pool, a: Action) {
    match a
    case Start(s, _) =>
      && s < |p.starters|
      && (match p.starters[s]
          case Begin => p.lock == Free
          case Await(i, _) => i < |p.slots| && p.slots[i].sem > 0
          case Return(_) => false
          case _ => true)
    case Run(t) =>
      t < |p.threads| && p.threads[t].phase != Gone && (p.threads[t].phase == Ended ==> p.lock == Free)
  }

  function WithStarter(p: Pool, s: nat, x: Starter): Pool
    requires s < |p.starters|
  {
    p.(starters := p.starters[s := x])
  }

  function WithSlot(p: Pool, i: nat, x: Slot): Pool
    requires i < |p.slots|
  {
    p.(slots := p.slots[i := x])
  }

  function WithThread(p: Pool, t: nat, x: Thread): Pool
    requires t < |p.threads|
  {
    p.(threads := p.threads[t := x])
  }

  /** The slots which positions speak of exist. */
  predicate WellFormed(p: Pool) {
    && |p.slots| == TA_MAX_THREADS
    && (forall t :: 0 <= t < |p.threads| ==> p.threads[t].slot < TA_MAX_THREADS)
    && (forall s :: 0 <= s < |p.starters| ==>
          match p.starters[s]
          case Scan(i) => i <= TA_MAX_THREADS
          case Create(i) => i < TA_MAX_THREADS
          case Activate(i, _) => i < TA_MAX_THREADS
          case Await(i, _) => i < TA_MAX_THREADS
          case _ => true)
  }

  /** One step of rcf_ch_start_thread(). */
  function StarterStep(p: Pool, s: nat, works: bool): Pool
    requires WellFormed(p) && Enabled(p, Start(s, works))
  {
    match p.starters[s]
    case Begin => WithStarter(p.(lock := ByStarter(s)), s, Scan(0))
    case Scan(i) =>
      if i == TA_MAX_THREADS then WithStarter(p, s, Unlock(TooMany))
      else if p.slots[i].active then WithStarter(p, s, Scan(i + 1))
      else if p.slots[i].semCreated then WithStarter(WithSlot(p, i, p.slots[i].(call := s)), s, Create(i))
      else if works then WithStarter(WithSlot(p, i, Slot(false, true, 0, s)), s, Create(i))
      else WithStarter(WithSlot(p, i, p.slots[i].(call := s)), s, Unlock(Failed))
    case Create(i) =>
      if works then
        WithStarter(p, s, Activate(i, |p.threads|)).(threads := p.threads + [Thread(i, s, Running, None, None)])
      else WithStarter(p, s, Unlock(Failed))
    case Activate(i, t) => WithStarter(WithSlot(p, i, p.slots[i].(active := true)), s, Await(i, t))
    case Await(i, t) => WithStarter(WithSlot(p, i, p.slots[i].(sem := p.slots[i].sem - 1)), s, Unlock(Started(i)))
    case Unlock(reply) => WithStarter(p.(lock := Free), s, Return(reply))
    case Return(_) => p
  }

  /** One step of a thread: of its routine, or of the end of the wrapper. */
  function ThreadStep(p: Pool, t: nat): Pool
    requires WellFormed(p) && Enabled(p, Run(t))
  {
    var x := p.threads[t];
    var i := x.slot;
    match x.phase
    case Running => WithThread(p, t, x.(phase := Called, routine := Some(p.slots[i].call)))
    case Called => WithThread(p, t, x.(phase := Loaded, params := Some(p.slots[i].call)))
    case Loaded => WithThread(WithSlot(p, i, p.slots[i].(sem := p.slots[i].sem + 1)), t, x.(phase := Posted))
    case Posted => WithThread(p, t, x.(phase := Ended))
    case Ended => WithThread(p.(lock := ByThread(t)), t, x.(phase := Locked))
    case Locked => WithThread(WithSlot(p, i, p.slots[i].(active := false)), t, x.(phase := Cleared))
    case Cleared => WithThread(p.(lock := Free), t, x.(phase := Gone))
    case Gone => p
  }

  function Step(p: Pool, a: Action): Pool
    requires WellFormed(p) && Enabled(p, a)
  {
    match a
    case Start(s, works) => StarterStep(p, s, works)
    case Run(t) => ThreadStep(p, t)
  }

  /** The routine has not posted yet. */
  predicate Starting(x: Thread) {
    x.phase == Running || x.phase == Called || x.phase == Loaded
  }

  /** The thread has not given up its slot yet. */
  predicate Live(x: Thread) {
    Starting(x) || x.phase == Posted || x.phase == Ended || x.phase == Locked
  }

  /** Thread `t` lives in slot `i`. */
  predicate Occupies(p: Pool, t: nat, i: nat) {
    t < |p.threads| && Live(p.threads[t]) && p.threads[t].slot == i
  }

  /** The lock holder is just the one whose position says so. */
  predicate LockInv(p: Pool) {
    && (forall s :: 0 <= s < |p.starters| ==> (InLock(p.starters[s]) <==> p.lock == ByStarter(s)))
    && (forall t :: 0 <= t < |p.threads| ==>
          ((p.threads[t].phase == Locked || p.threads[t].phase == Cleared) <==> p.lock == ByThread(t)))
    && (p.lock.ByStarter? ==> p.lock.s < |p.starters|)
    && (p.lock.ByThread? ==> p.lock.t < |p.threads|)
  }

  predicate StarterInv(p: Pool, x: Starter)
    requires |p.slots| == TA_MAX_THREADS
  {
    match x
    case Scan(i) => i <= TA_MAX_THREADS && forall j :: 0 <= j < i ==> p.slots[j].active
    case Create(i) => i < TA_MAX_THREADS && !p.slots[i].active && p.slots[i].semCreated
    case Activate(i, t) => i < TA_MAX_THREADS && !p.slots[i].active && p.slots[i].semCreated && Occupies(p, t, i)
    case Await(i, t) => i < TA_MAX_THREADS && p.slots[i].active && p.slots[i].semCreated && Occupies(p, t, i)
    case Unlock(Started(i)) => i < TA_MAX_THREADS
    case Unlock(TooMany) => forall j :: 0 <= j < TA_MAX_THREADS ==> p.slots[j].active
    case Return(Started(i)) => i < TA_MAX_THREADS
    case _ => true
  }

  /** From filling in a slot until the thread has posted, the slot and the thread are the starter's. */
  predicate Mine(p: Pool, s: nat)
    requires |p.slots| == TA_MAX_THREADS && s < |p.starters|
  {
    match p.starters[s]
    case Create(i) => i < TA_MAX_THREADS && p.slots[i].call == s
    case Activate(i, t) => i < TA_MAX_THREADS && p.slots[i].call == s && t < |p.threads| && p.threads[t].starter == s
    case Await(i, t) => i < TA_MAX_THREADS && p.slots[i].call == s && t < |p.threads| && p.threads[t].starter == s
    case _ => true
  }

  /** The semaphore of a slot is posted just between the post of the routine and the end of the wait. */
  predicate SemInv(p: Pool, i: nat)
    requires |p.slots| == TA_MAX_THREADS && i < TA_MAX_THREADS
  {
    p.slots[i].sem == if InCharge(p).Some? && InCharge(p).value.0 == i && Awaited(p, InCharge(p).value.1) then 1 else 0
  }

  /** The slot and the thread the lock holder is starting. */
  function InCharge(p: Pool): Option<(nat, nat)> {
    if p.lock.ByStarter? && p.lock.s < |p.starters| then
      match p.starters[p.lock.s]
      case Activate(i, t) => Some((i, t))
      case Await(i, t) => Some((i, t))
      case _ => None
    else None
  }

  predicate Awaited(p: Pool, t: nat) {
    t < |p.threads| && !Starting(p.threads[t])
  }

  predicate ThreadInv(p: Pool, t: nat)
    requires |p.slots| == TA_MAX_THREADS && t < |p.threads|
  {
    var x := p.threads[t];
    && x.slot < TA_MAX_THREADS
    && (Starting(x) ==> InCharge(p) == Some((x.slot, t)) && p.lock.s == x.starter)
    && (x.phase != Running ==> x.routine == Some(x.starter))
    && (x.phase != Running && x.phase != Called ==> x.params == Some(x.starter))
    && (Live(x) && !p.slots[x.slot].active ==> InCharge(p) == Some((x.slot, t)))
    && (Live(x) ==> p.slots[x.slot].semCreated)
  }

  ghost predicate Inv(p: Pool) {
    && |p.slots| == TA_MAX_THREADS
    && LockInv(p)
    && (forall s :: 0 <= s < |p.starters| ==> StarterInv(p, p.starters[s]) && Mine(p, s))
    && (forall t :: 0 <= t < |p.threads| ==> ThreadInv(p, t))
    && (forall t, u :: 0 <= t < u < |p.threads| && Live(p.threads[t]) && Live(p.threads[u]) ==>
          p.threads[t].slot != p.threads[u].slot)
    && (forall i :: 0 <= i < TA_MAX_THREADS ==> SemInv(p, i))
    && (forall i :: 0 <= i < TA_MAX_THREADS && p.slots[i].active ==> exists t :: Occupies(p, t, i))
  }

  lemma InvIsWellFormed(p: Pool)
    requires Inv(p)
    ensures WellFormed(p)
  {
    forall t | 0 <= t < |p.threads|
      ensures p.threads[t].slot < TA_MAX_THREADS
    {
      assert ThreadInv(p, t);
    }
    assert forall s :: 0 <= s < |p.starters| ==> StarterInv(p, p.starters[s]);
  }

  /** Before anything is started. */
  predicate Initial(p: Pool) {
    && p.lock == Free && p.threads == [] && |p.slots| == TA_MAX_THREADS
    && (forall i :: 0 <= i < |p.slots| ==> !p.slots[i].active && !p.slots[i].semCreated && p.slots[i].sem == 0)
    && (forall s :: 0 <= s < |p.starters| ==> p.starters[s] == Begin)
  }

  lemma InitialInv(p: Pool)
    requires Initial(p)
    ensures Inv(p)
  {
  }

  /** `q` has the threads and the active flags of `p`, and no starter is at work in either. */
  ghost predicate Alike(p: Pool, q: Pool) {
    && |p.slots| == |q.slots| == TA_MAX_THREADS && q.threads == p.threads
    && InCharge(p) == InCharge(q) == None
    && forall i :: 0 <= i < TA_MAX_THREADS ==>
           q.slots[i].active == p.slots[i].active && q.slots[i].sem == p.slots[i].sem
           && (p.slots[i].semCreated ==> q.slots[i].semCreated)
  }

  lemma ThreadsStay(p: Pool, q: Pool)
    requires Inv(p) && Alike(p, q)
    ensures forall t :: 0 <= t < |q.threads| ==> ThreadInv(q, t)
    ensures forall i :: 0 <= i < TA_MAX_THREADS ==> SemInv(q, i)
    ensures forall i :: 0 <= i < TA_MAX_THREADS && q.slots[i].active ==> exists t :: Occupies(q, t, i)
  {
    forall t | 0 <= t < |q.threads|
      ensures ThreadInv(q, t)
    {
      assert ThreadInv(p, t);
    }
    forall i | 0 <= i < TA_MAX_THREADS
      ensures SemInv(q, i)
      ensures q.slots[i].active ==> exists t :: Occupies(q, t, i)
    {
      assert SemInv(p, i);
      if q.slots[i].active {
        assert p.slots[i].active;
        var t :| Occupies(p, t, i);
        assert Occupies(q, t, i);
      }
    }
  }

  /** A starter takes the lock, or gives it back. */
  lemma LockingStep(p: Pool, s: nat, works: bool)
    requires Inv(p) && Enabled(p, Start(s, works)) && (p.starters[s].Begin? || p.starters[s].Unlock?)
    ensures WellFormed(p) && Inv(StarterStep(p, s, works))
  {
    InvIsWellFormed(p);
    var q := StarterStep(p, s, works);
    assert StarterInv(p, p.starters[s]) && Mine(p, s);
    assert Alike(p, q);
    ThreadsStay(p, q);
    forall x | 0 <= x < |q.starters|
      ensures StarterInv(q, q.starters[x]) && Mine(q, x)
    {
      assert StarterInv(p, p.starters[x]) && Mine(p, x);
    }
  }

  lemma UnusedSlot(p: Pool, i: nat)
    requires WellFormed(p) && Inv(p) && i < TA_MAX_THREADS
    ensures !p.slots[i].active && !p.slots[i].semCreated ==> p.slots[i].sem == 0
  {
    assert SemInv(p, i);
  }

  lemma ScanKeepsStarter(p: Pool, s: nat, works: bool, x: nat)
    requires Inv(p) && WellFormed(p) && Enabled(p, Start(s, works)) && p.starters[s].Scan? && x < |p.starters|
    ensures var q := StarterStep(p, s, works);
            |q.starters| == |p.starters| && StarterInv(q, q.starters[x]) && Mine(q, x)
  {
    assert StarterInv(p, p.starters[x]) && Mine(p, x);
    assert StarterInv(p, p.starters[s]) && Mine(p, s);
  }

  /** A starter looks at a slot, and fills it in if it is free. */
  lemma ScanStep(p: Pool, s: nat, works: bool)
    requires Inv(p) && Enabled(p, Start(s, works)) && p.starters[s].Scan?
    ensures WellFormed(p) && Inv(StarterStep(p, s, works))
  {
    InvIsWellFormed(p);
    var q := StarterStep(p, s, works);
    assert StarterInv(p, p.starters[s]) && Mine(p, s);
    if p.starters[s].i < TA_MAX_THREADS {
      UnusedSlot(p, p.starters[s].i);
    }
    assert Alike(p, q);
    ThreadsStay(p, q);
    forall x | 0 <= x < |q.starters|
      ensures StarterInv(q, q.starters[x]) && Mine(q, x)
    {
      ScanKeepsStarter(p, s, works, x);
    }
  }

  /** A new thread gets a slot which no other thread lives in. */
  lemma CreateStep(p: Pool, s: nat, works: bool)
    requires Inv(p) && Enabled(p, Start(s, works)) && p.starters[s].Create?
    ensures WellFormed(p) && Inv(StarterStep(p, s, works))
  {
    InvIsWellFormed(p);
    var q := StarterStep(p, s, works);
    var slot := p.starters[s].i;
    assert StarterInv(p, p.starters[s]) && Mine(p, s);
    assert InCharge(p) == None;
    forall t | 0 <= t < |p.threads| && Live(p.threads[t])
      ensures p.threads[t].slot != slot
    {
      assert ThreadInv(p, t);
    }
    if works {
      assert InCharge(q) == Some((slot, |p.threads|));
      assert Occupies(q, |p.threads|, slot);
    }
    forall x | 0 <= x < |q.starters|
      ensures StarterInv(q, q.starters[x]) && Mine(q, x)
    {
      assert StarterInv(p, p.starters[x]) && Mine(p, x);
    }
    forall t | 0 <= t < |q.threads|
      ensures ThreadInv(q, t)
    {
      if t < |p.threads| {
        assert ThreadInv(p, t);
      }
    }
    forall i | 0 <= i < TA_MAX_THREADS
      ensures SemInv(q, i)
      ensures q.slots[i].active ==> exists t :: Occupies(q, t, i)
    {
      assert SemInv(p, i);
      if q.slots[i].active {
        var t :| Occupies(p, t, i);
        assert Occupies(q, t, i);
      }
    }
  }

  /** The slot is marked active while its thread cannot be past the lock. */
  lemma ActivateStep(p: Pool, s: nat, works: bool)
    requires Inv(p) && Enabled(p, Start(s, works)) && p.starters[s].Activate?
    ensures WellFormed(p) && Inv(StarterStep(p, s, works))
  {
    InvIsWellFormed(p);
    var q := StarterStep(p, s, works);
    assert StarterInv(p, p.starters[s]) && Mine(p, s);
    var slot, thread := p.starters[s].i, p.starters[s].t;
    assert InCharge(p) == InCharge(q) == Some((slot, thread));
    assert Occupies(q, thread, slot);
    forall x | 0 <= x < |q.starters|
      ensures StarterInv(q, q.starters[x]) && Mine(q, x)
    {
      assert StarterInv(p, p.starters[x]) && Mine(p, x);
    }
    forall t | 0 <= t < |q.threads|
      ensures ThreadInv(q, t)
    {
      assert ThreadInv(p, t);
    }
    forall i | 0 <= i < TA_MAX_THREADS
      ensures SemInv(q, i)
      ensures q.slots[i].active ==> exists t :: Occupies(q, t, i)
    {
      assert SemInv(p, i);
      if q.slots[i].active {
        if i != slot {
          var t :| Occupies(p, t, i);
          assert Occupies(q, t, i);
        }
      }
    }
  }

  /** The wait takes the one post of the routine. */
  lemma AwaitStep(p: Pool, s: nat, works: bool)
    requires Inv(p) && Enabled(p, Start(s, works)) && p.starters[s].Await?
    ensures WellFormed(p) && Inv(StarterStep(p, s, works))
  {
    InvIsWellFormed(p);
    var q := StarterStep(p, s, works);
    assert StarterInv(p, p.starters[s]) && Mine(p, s);
    var slot, thread := p.starters[s].i, p.starters[s].t;
    assert InCharge(p) == Some((slot, thread)) && InCharge(q) == None;
    assert SemInv(p, slot);
    forall x | 0 <= x < |q.starters|
      ensures StarterInv(q, q.starters[x]) && Mine(q, x)
    {
      assert StarterInv(p, p.starters[x]) && Mine(p, x);
    }
    forall t | 0 <= t < |q.threads|
      ensures ThreadInv(q, t)
    {
      assert ThreadInv(p, t);
    }
    forall i | 0 <= i < TA_MAX_THREADS
      ensures SemInv(q, i)
      ensures q.slots[i].active ==> exists t :: Occupies(q, t, i)
    {
      assert SemInv(p, i);
      if q.slots[i].active {
        var t :| Occupies(p, t, i);
        assert Occupies(q, t, i);
      }
    }
  }

  /** `q` has the starters of `p`, and the same threads live in the same slots. */
  ghost predicate SameLives(p: Pool, q: Pool) {
    && q.starters == p.starters && |p.slots| == |q.slots| == TA_MAX_THREADS && |q.threads| == |p.threads|
    && (forall i :: 0 <= i < TA_MAX_THREADS ==> q.slots[i] == p.slots[i].(sem := q.slots[i].sem))
    && (forall t :: 0 <= t < |p.threads| ==> SameLife(p.threads[t], q.threads[t]))
  }

  predicate SameLife(x: Thread, y: Thread) {
    y.slot == x.slot && y.starter == x.starter && Live(y) == Live(x)
  }

  lemma StartersStay(p: Pool, q: Pool)
    requires Inv(p) && SameLives(p, q)
    ensures forall s :: 0 <= s < |q.starters| ==> StarterInv(q, q.starters[s]) && Mine(q, s)
    ensures forall i :: 0 <= i < TA_MAX_THREADS && q.slots[i].active ==> exists t :: Occupies(q, t, i)
  {
    forall s | 0 <= s < |q.starters|
      ensures StarterInv(q, q.starters[s]) && Mine(q, s)
    {
      assert StarterInv(p, p.starters[s]) && Mine(p, s);
    }
    forall i | 0 <= i < TA_MAX_THREADS && q.slots[i].active
      ensures exists t :: Occupies(q, t, i)
    {
      assert p.slots[i].active;
      var t: nat :| Occupies(p, t, i);
      assert SameLife(p.threads[t], q.threads[t]);
      assert Occupies(q, t, i);
    }
  }

  lemma LivesApart(p: Pool, q: Pool)
    requires Inv(p) && SameLives(p, q)
    ensures forall t, u :: 0 <= t < u < |q.threads| && Live(q.threads[t]) && Live(q.threads[u]) ==>
              q.threads[t].slot != q.threads[u].slot
  {
    forall t, u | 0 <= t < u < |q.threads| && Live(q.threads[t]) && Live(q.threads[u])
      ensures q.threads[t].slot != q.threads[u].slot
    {
      assert SameLife(p.threads[t], q.threads[t]) && SameLife(p.threads[u], q.threads[u]);
    }
  }

  /** The routine reads what its starter has left in the slot, which nobody else writes meanwhile. */
  lemma ReadStep(p: Pool, t0: nat)
    requires Inv(p) && Enabled(p, Run(t0)) && (p.threads[t0].phase.Running? || p.threads[t0].phase.Called?)
    ensures WellFormed(p) && Inv(ThreadStep(p, t0))
  {
    InvIsWellFormed(p);
    var q := ThreadStep(p, t0);
    assert ThreadInv(p, t0);
    assert InCharge(q) == InCharge(p);
    assert StarterInv(p, p.starters[p.lock.s]) && Mine(p, p.lock.s);
    StartersStay(p, q);
    LivesApart(p, q);
    forall t | 0 <= t < |q.threads|
      ensures ThreadInv(q, t)
    {
      assert ThreadInv(p, t);
    }
    forall i | 0 <= i < TA_MAX_THREADS
      ensures SemInv(q, i)
    {
      assert SemInv(p, i);
    }
  }

  /** The routine posts once, while its starter is still waiting. */
  lemma PostStep(p: Pool, t0: nat)
    requires Inv(p) && Enabled(p, Run(t0)) && p.threads[t0].phase.Loaded?
    ensures WellFormed(p) && Inv(ThreadStep(p, t0))
  {
    InvIsWellFormed(p);
    var q := ThreadStep(p, t0);
    assert ThreadInv(p, t0);
    assert InCharge(q) == InCharge(p);
    StartersStay(p, q);
    LivesApart(p, q);
    forall t | 0 <= t < |q.threads|
      ensures ThreadInv(q, t)
    {
      assert ThreadInv(p, t);
    }
    forall i | 0 <= i < TA_MAX_THREADS
      ensures SemInv(q, i)
    {
      assert SemInv(p, i);
    }
  }

  /** A step which changes no more of the pool than the position of a thread that has posted, and
      perhaps the lock. */
  ghost predicate MovesOn(p: Pool, q: Pool, t0: nat) {
    && t0 < |p.threads| == |q.threads| && !Starting(p.threads[t0]) && q.starters == p.starters && q.slots == p.slots
    && InCharge(q) == InCharge(p) && (InCharge(p).Some? ==> q.lock == p.lock)
    && q.threads == p.threads[t0 := p.threads[t0].(phase := q.threads[t0].phase)]
    && !Starting(q.threads[t0]) && Live(q.threads[t0]) == Live(p.threads[t0])
  }

  lemma MovingOnIsSafe(p: Pool, q: Pool, t0: nat)
    requires Inv(p) && MovesOn(p, q, t0) && LockInv(q)
    ensures Inv(q)
  {
    StartersStay(p, q);
    LivesApart(p, q);
    forall t | 0 <= t < |q.threads|
      ensures ThreadInv(q, t)
    {
      assert ThreadInv(p, t);
    }
    forall i | 0 <= i < TA_MAX_THREADS
      ensures SemInv(q, i)
    {
      assert SemInv(p, i);
    }
  }

  /** The routine ends. */
  lemma EndStep(p: Pool, t0: nat)
    requires Inv(p) && Enabled(p, Run(t0)) && p.threads[t0].phase.Posted?
    ensures WellFormed(p) && Inv(ThreadStep(p, t0))
  {
    InvIsWellFormed(p);
    MovingOnIsSafe(p, ThreadStep(p, t0), t0);
  }

  /** The wrapper takes the lock, or gives it back. */
  lemma LockStep(p: Pool, t0: nat)
    requires Inv(p) && Enabled(p, Run(t0)) && (p.threads[t0].phase.Ended? || p.threads[t0].phase.Cleared?)
    ensures WellFormed(p) && Inv(ThreadStep(p, t0))
  {
    InvIsWellFormed(p);
    var q := ThreadStep(p, t0);
    assert InCharge(q) == InCharge(p) == None;
    MovingOnIsSafe(p, q, t0);
  }

  /** The wrapper marks the slot free under the lock: no starter is active meanwhile. */
  lemma ClearStep(p: Pool, t0: nat)
    requires Inv(p) && Enabled(p, Run(t0)) && p.threads[t0].phase.Locked?
    ensures WellFormed(p) && Inv(ThreadStep(p, t0))
  {
    InvIsWellFormed(p);
    var q := ThreadStep(p, t0);
    assert ThreadInv(p, t0);
    assert InCharge(q) == InCharge(p) == None;
    forall x | 0 <= x < |q.starters|
      ensures StarterInv(q, q.starters[x]) && Mine(q, x)
    {
      assert StarterInv(p, p.starters[x]) && Mine(p, x);
    }
    forall t | 0 <= t < |q.threads|
      ensures ThreadInv(q, t)
    {
      assert ThreadInv(p, t);
    }
    forall i | 0 <= i < TA_MAX_THREADS
      ensures SemInv(q, i)
      ensures q.slots[i].active ==> exists t :: Occupies(q, t, i)
    {
      assert SemInv(p, i);
      if q.slots[i].active {
        var t :| Occupies(p, t, i);
        assert Occupies(q, t, i);
      }
    }
  }

  lemma StepKeepsInv(p: Pool, a: Action)
    requires Inv(p) && Enabled(p, a)
    ensures WellFormed(p) && Inv(Step(p, a))
  {
    InvIsWellFormed(p);
    match a
    case Start(s, works) =>
      match p.starters[s] {
        case Create(_) => CreateStep(p, s, works);
        case Activate(_, _) => ActivateStep(p, s, works);
        case Await(_, _) => AwaitStep(p, s, works);
        case Scan(_) => ScanStep(p, s, works);
        case _ => LockingStep(p, s, works);
      }
    case Run(t) =>
      match p.threads[t].phase {
        case Running => ReadStep(p, t);
        case Called => ReadStep(p, t);
        case Loaded => PostStep(p, t);
        case Posted => EndStep(p, t);
        case Locked => ClearStep(p, t);
        case _ => LockStep(p, t);
      }
  }

  // All runs

  /** The states `ps` are a run which takes the actions `as`. */
  ghost predicate IsRun(ps: seq<Pool>, actions: seq<Action>) {
    && |ps| == |actions| + 1 && Initial(ps[0])
    && forall k :: 0 <= k < |actions| ==> IsStep(ps[k], actions[k], ps[k + 1])
  }

  ghost predicate IsStep(p: Pool, a: Action, q: Pool) {
    WellFormed(p) && Enabled(p, a) && q == Step(p, a)
  }

  lemma {:induction false} RunKeepsInv(ps: seq<Pool>, actions: seq<Action>, k: nat)
    requires IsRun(ps, actions) && k <= |actions|
    ensures Inv(ps[k])
  {
    if k == 0 {
      InitialInv(ps[0]);
    } else {
      RunKeepsInv(ps, actions, k - 1);
      assert IsStep(ps[k - 1], actions[k - 1], ps[k]);
      StepKeepsInv(ps[k - 1], actions[k - 1]);
    }
  }

  /** The thread has the routine and the parameters of the call which has created it. */
  predicate Served(x: Thread) {
    x.routine == Some(x.starter) && x.params == Some(x.starter)
  }

  /** In every state of every run: a thread which has posted has got the routine and the parameters
      of the call which has created it, live threads have slots of their own, which have semaphores, a
      free lock means that exactly the slots of live threads are marked active and that no semaphore is posted. */
  lemma RunIsSafe(ps: seq<Pool>, actions: seq<Action>, k: nat)
    requires IsRun(ps, actions) && k <= |actions|
    ensures var p := ps[k];
            && |p.slots| == TA_MAX_THREADS
            && (forall t :: 0 <= t < |p.threads| ==> p.threads[t].slot < TA_MAX_THREADS)
            && (forall t :: 0 <= t < |p.threads| && !Starting(p.threads[t]) ==> Served(p.threads[t]))
            && (forall t :: 0 <= t < |p.threads| && Live(p.threads[t]) ==> p.slots[p.threads[t].slot].semCreated)
            && (forall t, u :: 0 <= t < u < |p.threads| && Live(p.threads[t]) && Live(p.threads[u]) ==>
                  p.threads[t].slot != p.threads[u].slot)
            && (p.lock == Free ==> forall i :: 0 <= i < TA_MAX_THREADS ==>
                  (p.slots[i].active <==> exists t :: Occupies(p, t, i)) && p.slots[i].sem == 0)
  {
    var p := ps[k];
    RunKeepsInv(ps, actions, k);
    forall t | 0 <= t < |p.threads|
      ensures p.threads[t].slot < TA_MAX_THREADS
      ensures !Starting(p.threads[t]) ==> Served(p.threads[t])
      ensures Live(p.threads[t]) ==> p.slots[p.threads[t].slot].semCreated
      ensures p.lock == Free && Live(p.threads[t]) ==> p.slots[p.threads[t].slot].active
    {
      assert ThreadInv(p, t);
    }
    forall i | 0 <= i < TA_MAX_THREADS
      ensures p.lock == Free ==> p.slots[i].sem == 0
    {
      assert SemInv(p, i);
    }
  }

  /** The slot in which a thread is created is nobody's. */
  lemma NewThreadHasFreeSlot(ps: seq<Pool>, actions: seq<Action>, k: nat)
    requires IsRun(ps, actions) && k < |actions| && |ps[k + 1].threads| > |ps[k].threads|
    ensures var t := |ps[k].threads|;
            && |ps[k + 1].threads| == t + 1
            && forall u :: 0 <= u < t && Live(ps[k].threads[u]) ==> ps[k].threads[u].slot != ps[k + 1].threads[t].slot
  {
    var p := ps[k];
    RunKeepsInv(ps, actions, k);
    assert IsStep(p, actions[k], ps[k + 1]);
    var s := actions[k].s;
    assert StarterInv(p, p.starters[s]) && Mine(p, s);
    forall u | 0 <= u < |p.threads| && Live(p.threads[u])
      ensures p.threads[u].slot != p.starters[s].i
    {
      assert ThreadInv(p, u);
    }
  }

  /** A start succeeds only after the routine of the thread it has created has posted, and it
      returns the slot of that thread. */
  lemma StartedMeansPosted(ps: seq<Pool>, actions: seq<Action>, k: nat, s: nat, i: nat)
    requires IsRun(ps, actions) && k < |actions| && s < |ps[k].starters| == |ps[k + 1].starters|
    requires ps[k + 1].starters[s] == Unlock(Started(i)) != ps[k].starters[s]
    ensures ps[k].starters[s].Await? && ps[k].starters[s].i == i < TA_MAX_THREADS
    ensures var t := ps[k].starters[s].t;
            && t < |ps[k + 1].threads| && ps[k + 1].threads[t].slot == i && ps[k + 1].threads[t].starter == s
            && !Starting(ps[k + 1].threads[t]) && Served(ps[k + 1].threads[t])
            && ps[k + 1].slots[i].active && ps[k + 1].slots[i].sem == 0
  {
    var p := ps[k];
    RunKeepsInv(ps, actions, k);
    assert IsStep(p, actions[k], ps[k + 1]);
    assert StarterInv(p, p.starters[s]) && Mine(p, s);
    assert InCharge(p) == Some((i, p.starters[s].t));
    assert SemInv(p, i) && ThreadInv(p, p.starters[s].t);
  }

  /** A start is refused for want of slots only while all of them have live threads. */
  lemma RefusedWhenFull(ps: seq<Pool>, actions: seq<Action>, k: nat, s: nat, i: nat)
    requires IsRun(ps, actions) && k <= |actions| && s < |ps[k].starters| && ps[k].starters[s] == Unlock(TooMany)
    requires i < TA_MAX_THREADS
    ensures exists t :: Occupies(ps[k], t, i)
  {
    RunKeepsInv(ps, actions, k);
    assert StarterInv(ps[k], ps[k].starters[s]);
    assert ps[k].slots[i].active;
  }

  /** A start fails exactly when a system call does which it needs: for the semaphore of a slot never
      used before, or for the thread. */
  lemma FailedMeansFailure(ps: seq<Pool>, actions: seq<Action>, k: nat, s: nat)
    requires IsRun(ps, actions) && k < |actions| && s < |ps[k].starters| == |ps[k + 1].starters|
    requires ps[k].starters[s] != Unlock(Failed)
    ensures ps[k + 1].starters[s] == Unlock(Failed) <==>
              && actions[k] == Start(s, false)
              && match ps[k].starters[s]
                 case Create(_) => true
                 case Scan(i) => i < TA_MAX_THREADS && !ps[k].slots[i].active && !ps[k].slots[i].semCreated
                 case _ => false
  {
    RunKeepsInv(ps, actions, k);
    assert IsStep(ps[k], actions[k], ps[k + 1]);
  }

  lemma StartersRemain(ps: seq<Pool>, actions: seq<Action>, k: nat)
    requires IsRun(ps, actions) && k < |actions|
    ensures |ps[k + 1].starters| == |ps[k].starters|
  {
    RunKeepsInv(ps, actions, k);
    assert IsStep(ps[k], actions[k], ps[k + 1]);
  }

  /** A start whose system calls all work does not fail. */
  lemma {:induction false} WorkingStartsDoNotFail(ps: seq<Pool>, actions: seq<Action>, k: nat, s: nat)
    requires IsRun(ps, actions) && k <= |actions| && s < |ps[k].starters|
    requires forall j :: 0 <= j < k ==> actions[j] != Start(s, false)
    ensures ps[k].starters[s] != Unlock(Failed) && ps[k].starters[s] != Return(Failed)
  {
    if k > 0 {
      StartersRemain(ps, actions, k - 1);
      WorkingStartsDoNotFail(ps, actions, k - 1, s);
      FailedMeansFailure(ps, actions, k - 1, s);
      assert IsStep(ps[k - 1], actions[k - 1], ps[k]);
    }
  }

  /** The semaphore of a slot is created once, by a starter which has found the slot free. */
  lemma SemaphoreIsThere(ps: seq<Pool>, actions: seq<Action>, k: nat, i: nat)
    requires IsRun(ps, actions) && k < |actions| && i < TA_MAX_THREADS
    ensures |ps[k].slots| == |ps[k + 1].slots| == TA_MAX_THREADS
    ensures ps[k].slots[i].semCreated ==> ps[k + 1].slots[i].semCreated
    ensures !ps[k].slots[i].semCreated && ps[k + 1].slots[i].semCreated <==>
              && actions[k].Start? && actions[k].works && ps[k].starters[actions[k].s] == Scan(i)
              && !ps[k].slots[i].active && !ps[k].slots[i].semCreated
  {
    RunKeepsInv(ps, actions, k);
    InvIsWellFormed(ps[k]);
    assert IsStep(ps[k], actions[k], ps[k + 1]);
  }

  /** Somebody can always go on until all calls have returned and all threads are gone. */
  lemma NoDeadlock(ps: seq<Pool>, actions: seq<Action>, k: nat) returns (a: Action)
    requires IsRun(ps, actions) && k <= |actions|
    requires (exists s :: 0 <= s < |ps[k].starters| && !ps[k].starters[s].Return?)
          || (exists t :: 0 <= t < |ps[k].threads| && !ps[k].threads[t].phase.Gone?)
    ensures WellFormed(ps[k]) && Enabled(ps[k], a)
  {
    var p := ps[k];
    RunKeepsInv(ps, actions, k);
    InvIsWellFormed(p);
    match p.lock
    case Free =>
      if s :| 0 <= s < |p.starters| && !p.starters[s].Return? {
        a := Start(s, true);
      } else {
        var t :| 0 <= t < |p.threads| && !p.threads[t].phase.Gone?;
        a := Run(t);
      }
    case ByThread(t) => a := Run(t);
    case ByStarter(s) =>
      assert StarterInv(p, p.starters[s]) && Mine(p, s);
      a := Start(s, true);
      if p.starters[s].Await? {
        var (i, t) := InCharge(p).value;
        assert SemInv(p, i);
        if p.slots[i].sem == 0 {
          a := Run(t);
        }
      }
  }

  // All runs end

  /** The steps a thread has still to take. */
  function ThreadLeft(x: Thread): nat {
    match x.phase
    case Running => 7
    case Called => 6
    case Loaded => 5
    case Posted => 4
    case Ended => 3
    case Locked => 2
    case Cleared => 1
    case Gone => 0
  }

  /** At most these steps are left for a starter and the thread which it has still to create. */
  function StarterLeft(x: Starter): nat {
    match x
    case Begin => 29
    case Scan(i) => if i <= TA_MAX_THREADS then 12 + (TA_MAX_THREADS - i) else 12
    case Create(_) => 11
    case Activate(_, _) => 3
    case Await(_, _) => 2
    case Unlock(_) => 1
    case Return(_) => 0
  }

  function StartersLeft(starters: seq<Starter>, n: nat): nat
    requires n <= |starters|
  {
    if n == 0 then 0 else StartersLeft(starters, n - 1) + StarterLeft(starters[n - 1])
  }

  function ThreadsLeft(threads: seq<Thread>, n: nat): nat
    requires n <= |threads|
  {
    if n == 0 then 0 else ThreadsLeft(threads, n - 1) + ThreadLeft(threads[n - 1])
  }

  function StepsLeft(p: Pool): nat {
    StartersLeft(p.starters, |p.starters|) + ThreadsLeft(p.threads, |p.threads|)
  }

  lemma {:induction false} StartersLeftAt(starters: seq<Starter>, s: nat, x: Starter, n: nat)
    requires s < |starters| && n <= |starters|
    ensures StartersLeft(starters[s := x], n) + (if s < n then StarterLeft(starters[s]) else 0)
         == StartersLeft(starters, n) + if s < n then StarterLeft(x) else 0
  {
    if n > 0 {
      StartersLeftAt(starters, s, x, n - 1);
    }
  }

  lemma {:induction false} ThreadsLeftAt(threads: seq<Thread>, t: nat, x: Thread, n: nat)
    requires t < |threads| && n <= |threads|
    ensures ThreadsLeft(threads[t := x], n) + (if t < n then ThreadLeft(threads[t]) else 0)
         == ThreadsLeft(threads, n) + if t < n then ThreadLeft(x) else 0
  {
    if n > 0 {
      ThreadsLeftAt(threads, t, x, n - 1);
    }
  }

  lemma {:induction false} ThreadsLeftSame(threads: seq<Thread>, x: Thread, n: nat)
    requires n <= |threads|
    ensures ThreadsLeft(threads + [x], n) == ThreadsLeft(threads, n)
  {
    if n > 0 {
      ThreadsLeftSame(threads, x, n - 1);
    }
  }

  lemma StarterGoesOn(p: Pool, s: nat, works: bool)
    requires WellFormed(p) && Enabled(p, Start(s, works))
    ensures var q := StarterStep(p, s, works);
            && q.starters == p.starters[s := q.starters[s]]
            && if |q.threads| > |p.threads|
               then q.threads == p.threads + [q.threads[|p.threads|]] && p.starters[s].Create?
                    && q.starters[s].Activate? && q.threads[|p.threads|].phase == Running
               else q.threads == p.threads && StarterLeft(q.starters[s]) < StarterLeft(p.starters[s])
  {
  }

  lemma StarterStepsGoOn(p: Pool, s: nat, works: bool)
    requires WellFormed(p) && Enabled(p, Start(s, works))
    ensures StepsLeft(StarterStep(p, s, works)) < StepsLeft(p)
  {
    var q := StarterStep(p, s, works);
    StarterGoesOn(p, s, works);
    StartersLeftAt(p.starters, s, q.starters[s], |p.starters|);
    if |q.threads| > |p.threads| {
      ThreadsLeftSame(p.threads, q.threads[|p.threads|], |p.threads|);
    }
  }

  lemma ThreadGoesOn(p: Pool, t: nat)
    requires WellFormed(p) && Enabled(p, Run(t))
    ensures var q := ThreadStep(p, t);
            && q.starters == p.starters && q.threads == p.threads[t := q.threads[t]]
            && ThreadLeft(q.threads[t]) < ThreadLeft(p.threads[t])
  {
  }

  /** Every step leaves less to do. */
  lemma StepsGoOn(p: Pool, a: Action)
    requires WellFormed(p) && Enabled(p, a)
    ensures StepsLeft(Step(p, a)) < StepsLeft(p)
  {
    match a
    case Start(s, works) => StarterStepsGoOn(p, s, works);
    case Run(t) =>
      ThreadGoesOn(p, t);
      ThreadsLeftAt(p.threads, t, ThreadStep(p, t).threads[t], |p.threads|);
  }

  /** No run has more than 29 steps a starter: with `NoDeadlock`, every start returns and every thread
      ends, however the steps interleave. */
  lemma {:induction false} RunsEnd(ps: seq<Pool>, actions: seq<Action>, k: nat)
    requires IsRun(ps, actions) && k <= |actions|
    ensures k + StepsLeft(ps[k]) <= 29 * |ps[0].starters|
  {
    if k == 0 {
      AllBegin(ps[0], |ps[0].starters|);
    } else {
      RunsEnd(ps, actions, k - 1);
      assert IsStep(ps[k - 1], actions[k - 1], ps[k]);
      StepsGoOn(ps[k - 1], actions[k - 1]);
    }
  }

  lemma {:induction false} AllBegin(p: Pool, n: nat)
    requires Initial(p) && n <= |p.starters|
    ensures StartersLeft(p.starters, n) == 29 * n
  {
    if n > 0 {
      AllBegin(p, n - 1);
    }
  }
}
