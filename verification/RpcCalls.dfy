/** Asynchronous calls of agents/win32/tarpc_server.h: RCF_RPC_CALL starts a thread, RCF_RPC_WAIT joins it,
    and the three pointers which travel between them do so as identifiers in one shared table. */
module RpcCalls {
  import opened Wrappers

  /** The exit code GetExitCodeThread() reports of a running thread. */
  const STILL_ACTIVE := 259

  /** What an identifier stands for: the thread, the `done` flag or the argument of a call, or
      something the rest of the server has put there. */
  datatype Pointer = Handle(c: nat) | Done(c: nat) | Argument(c: nat) | Foreign(n: int)

  type Table = map<nat, Pointer>

  /** One instance of TARPC_FUNC: _copy_args moves parts of the input into an empty output, _actions
      make the call. */
  datatype Rpc<!I, !O> = Rpc(copyArgs: I -> (I, O), actions: (I, O) -> O)

  /** The reply to RCF_RPC_CALL_WAIT. */
  function CallWait<I, O>(rpc: Rpc<I, O>, input: I): O {
    var (i, o) := rpc.copyArgs(input);
    rpc.actions(i, o)
  }

  /** Where the thread of a call is, from _func##_proc() to the end of thread_exit(). */
  datatype Worker =
    | Acting
    | Acted
    | Marked
    | Numbered(rc: nat)                   // has got STILL_ACTIVE as the identifier of its argument
    | Renumbered(rc: nat, newRc: nat)     // has got a second one
    | Exited(code: nat)

  /** Where the server is in the RCF_RPC_CALL and RCF_RPC_WAIT requests of a call. */
  datatype Caller<O> =
    | Created
    | HasTid(tid: nat)
    | Called(tid: nat, done: nat)         // has replied to RCF_RPC_CALL
    | Joining(tid: nat, done: nat, handle: Option<Pointer>)
    | HasCode(tid: nat, done: nat, code: nat)
    | HasArg(tid: nat, done: nat, code: nat, arg: Option<Pointer>)
    | CodeFreed(tid: nat, done: nat, arg: Option<Pointer>)
    | TidFreed(done: nat, arg: Option<Pointer>)
    | Copied(done: nat, out: O)
    | Returned(out: O)                    // has replied to RCF_RPC_WAIT and has freed the argument
    | Broken(done: nat)                   // has replied with an error, without freeing anything more

  /** The structure _func##_arg. */
  datatype Memory<I, O> = Memory(inp: I, out: O, done: bool)

  /** `denied` tells that the table had no room for the thread or for the argument of the call. */
  datatype Call<I, O> = Call(input: I, caller: Caller<O>, worker: Worker, arg: Memory<I, O>, denied: bool)

  /** `others` remembers what the rest of the server has in the table. */
  datatype State<I, O> = State(table: Table, calls: seq<Call<I, O>>, others: map<nat, int>)

  /** `id` is what the table gives if the step asks for an identifier, 0 if it has no room. */
  datatype Action<I> =
    | Begin(input: I)
    | Serve(c: nat, id: nat)
    | Work(c: nat, id: nat)
    | Store(id: nat, n: int)
    | Drop(id: nat)

  function Get(table: Table, id: nat): Option<Pointer> {
    if id in table then Some(table[id]) else None
  }

  function ExitCode(w: Worker): nat {
    if w.Exited? then w.code else STILL_ACTIVE
  }

  predicate Fresh(table: Table, id: nat) {
    id !in table
  }

  function Put(table: Table, id: nat, p: Pointer): Table {
    if id == 0 then table else table[id := p]
  }

  predicate Enabled<I, O>(s: State<I, O>, a: Action<I>) {
    match a
    case Begin(_) => true
    case Serve(c, id) => c < |s.calls| && Fresh(s.table, id)
      && !s.calls[c].caller.Returned? && !s.calls[c].caller.Broken?
    case Work(c, id) => c < |s.calls| && Fresh(s.table, id) && !s.calls[c].worker.Exited?
    case Store(id, _) => id != 0 && Fresh(s.table, id)
    case Drop(id) => id in s.table && s.table[id].Foreign?
  }

  /** A step of the server; the requests of one call come one after the other. */
  function ServeCall<I, O>(s: State<I, O>, c: nat, id: nat): (Table, Caller<O>)
    requires c < |s.calls| && Enabled(s, Serve(c, id))
  {
    var table := s.table;
    match s.calls[c].caller
    case Created => (Put(table, id, Handle(c)), HasTid(id))
    case HasTid(tid) => (Put(table, id, Done(c)), Called(tid, id))
    case Called(tid, done) => (table, Joining(tid, done, Get(table, tid)))
    case Joining(tid, done, handle) =>
      if !(handle.Some? && handle.value.Handle? && handle.value.c < |s.calls|) then (table, Broken(done))
      else if ExitCode(s.calls[handle.value.c].worker) == STILL_ACTIVE then (table, s.calls[c].caller)
      else (table, HasCode(tid, done, ExitCode(s.calls[handle.value.c].worker)))
    case HasCode(tid, done, code) => (table, HasArg(tid, done, code, Get(table, code)))
    case HasArg(tid, done, code, arg) => (table - {code}, CodeFreed(tid, done, arg))
    case CodeFreed(tid, done, arg) => (table - {tid}, TidFreed(done, arg))
    case TidFreed(done, arg) =>
      if arg.Some? && arg.value.Argument? && arg.value.c < |s.calls|
      then (table, Copied(done, s.calls[arg.value.c].arg.out))
      else (table, Broken(done))
    case Copied(done, out) => (table - {done}, Returned(out))
  }

  /** A step of the thread of a call. */
  function WorkCall<I, O>(rpc: Rpc<I, O>, s: State<I, O>, c: nat, id: nat): (Table, Worker, Memory<I, O>)
    requires c < |s.calls| && Enabled(s, Work(c, id))
  {
    var (table, arg) := (s.table, s.calls[c].arg);
    match s.calls[c].worker
    case Acting => (table, Acted, arg.(out := rpc.actions(arg.inp, arg.out)))
    case Acted => (table, Marked, arg.(done := true))
    case Marked => (Put(table, id, Argument(c)), if id == STILL_ACTIVE then Numbered(id) else Exited(id), arg)
    case Numbered(rc) => (Put(table, id, Argument(c)), Renumbered(rc, id), arg)
    case Renumbered(rc, newRc) => (table - {rc}, Exited(newRc), arg)
  }

  function Step<I, O>(rpc: Rpc<I, O>, s: State<I, O>, a: Action<I>): State<I, O>
    requires Enabled(s, a)
  {
    match a
    case Begin(input) =>
      var (i, o) := rpc.copyArgs(input);
      s.(calls := s.calls + [Call(input, Created, Acting, Memory(i, o, false), false)])
    case Serve(c, id) =>
      var (table, caller) := ServeCall(s, c, id);
      var denied := s.calls[c].denied || (s.calls[c].caller.Created? && id == 0);
      s.(table := table, calls := s.calls[c := s.calls[c].(caller := caller, denied := denied)])
    case Work(c, id) =>
      var (table, worker, arg) := WorkCall(rpc, s, c, id);
      var denied := s.calls[c].denied || ((s.calls[c].worker.Marked? || s.calls[c].worker.Numbered?) && id == 0);
      s.(table := table, calls := s.calls[c := s.calls[c].(worker := worker, arg := arg, denied := denied)])
    case Store(id, n) => s.(table := s.table[id := Foreign(n)], others := s.others[id := n])
    case Drop(id) => s.(table := s.table - {id}, others := s.others - {id})
  }

  /** A request may begin at any time: its call is a new one, with the arguments moved. */
  lemma CallsBegin<I, O>(rpc: Rpc<I, O>, s: State<I, O>, input: I)
    ensures Enabled(s, Begin(input))
    ensures var t := Step(rpc, s, Begin(input));
            && |t.calls| == |s.calls| + 1 && t.calls[..|s.calls|] == s.calls && t.table == s.table
            && var x := t.calls[|s.calls|];
               x.input == input && x.caller.Created? && x.worker.Acting? && !x.arg.done && !x.denied
  {
  }

  /** What the rest of the server puts into the table is there until it takes it out, which leaves
      everything as it was. */
  lemma RestOfServer<I, O>(rpc: Rpc<I, O>, s: State<I, O>, id: nat, n: int)
    requires Enabled(s, Store(id, n)) && id !in s.others
    ensures var t := Step(rpc, s, Store(id, n));
            && Get(t.table, id) == Some(Foreign(n)) && t.others == s.others[id := n] && t.calls == s.calls
            && (forall i :: i != id ==> Get(t.table, i) == Get(s.table, i))
            && Enabled(t, Drop(id)) && Step(rpc, t, Drop(id)) == s
  {
    var t := Step(rpc, s, Store(id, n));
    assert t.table - {id} == s.table && t.others - {id} == s.others;
  }

  // Which call owns which identifiers

  function TidOf<O>(x: Caller<O>): Option<nat> {
    match x
    case HasTid(tid) => Some(tid)
    case Called(tid, _) => Some(tid)
    case Joining(tid, _, _) => Some(tid)
    case HasCode(tid, _, _) => Some(tid)
    case HasArg(tid, _, _, _) => Some(tid)
    case CodeFreed(tid, _, _) => Some(tid)
    case _ => None
  }

  function DoneOf<O>(x: Caller<O>): Option<nat> {
    match x
    case Called(_, done) => Some(done)
    case Joining(_, done, _) => Some(done)
    case HasCode(_, done, _) => Some(done)
    case HasArg(_, done, _, _) => Some(done)
    case CodeFreed(_, done, _) => Some(done)
    case TidFreed(done, _) => Some(done)
    case Copied(done, _) => Some(done)
    case Broken(done) => Some(done)
    case _ => None
  }

  /** The identifier of the argument has been freed by the join. */
  predicate Joined<O>(x: Caller<O>) {
    x.CodeFreed? || x.TidFreed? || x.Copied? || x.Returned?
  }

  function CodesOf<I, O>(x: Call<I, O>): set<nat> {
    match x.worker
    case Numbered(rc) => {rc}
    case Renumbered(rc, newRc) => {rc, newRc} - {0}
    case Exited(code) => if Joined(x.caller) then {} else {code} - {0}
    case _ => {}
  }

  predicate Holds(table: Table, id: nat, p: Pointer) {
    id in table && table[id] == p
  }

  /** What call `c` owns is in the table. */
  predicate Kept<I, O>(table: Table, x: Call<I, O>, c: nat) {
    && (TidOf(x.caller).Some? && TidOf(x.caller).value != 0 ==> Holds(table, TidOf(x.caller).value, Handle(c)))
    && (DoneOf(x.caller).Some? && DoneOf(x.caller).value != 0 ==> Holds(table, DoneOf(x.caller).value, Done(c)))
    && (forall id :: id in CodesOf(x) ==> Holds(table, id, Argument(c)))
  }

  /** The identifier is owned by the call it leads to, or by the rest of the server. */
  predicate Accounted<I, O>(s: State<I, O>, id: nat)
    requires id in s.table
  {
    match s.table[id]
    case Handle(c) => c < |s.calls| && TidOf(s.calls[c].caller) == Some(id)
    case Done(c) => c < |s.calls| && DoneOf(s.calls[c].caller) == Some(id)
    case Argument(c) => c < |s.calls| && id in CodesOf(s.calls[c])
    case Foreign(n) => id in s.others && s.others[id] == n
  }

  /** What an exit code leads to before the join frees it. */
  function Told(code: nat, c: nat): Option<Pointer> {
    if code == 0 then None else Some(Argument(c))
  }

  predicate DeniedTid<O>(x: Caller<O>) {
    x.Broken? || TidOf(x) == Some(0)
  }

  predicate DeniedCode(x: Worker) {
    (x.Renumbered? && x.newRc == 0) || (x.Exited? && x.code == 0)
  }

  /** What the positions of call `c` have to do with each other and with the argument. */
  ghost predicate Coherent<I, O>(rpc: Rpc<I, O>, x: Call<I, O>, c: nat) {
    && (x.worker.Acting? ==> (x.arg.inp, x.arg.out) == rpc.copyArgs(x.input))
    && (!x.worker.Acting? ==> x.arg.out == CallWait(rpc, x.input))
    && (x.arg.done <==> !x.worker.Acting? && !x.worker.Acted?)
    && (match x.worker
        case Numbered(rc) => rc == STILL_ACTIVE
        case Renumbered(rc, newRc) => rc == STILL_ACTIVE && newRc != STILL_ACTIVE
        case Exited(code) => code != STILL_ACTIVE
        case _ => true)
    && (match x.caller
        case HasTid(tid) => tid == 0 ==> x.denied
        case Called(tid, _) => tid == 0 ==> x.denied
        case Joining(tid, _, handle) => if tid == 0 then handle == None && x.denied else handle == Some(Handle(c))
        case HasCode(tid, _, code) => tid != 0 && x.worker == Exited(code)
        case HasArg(tid, _, code, arg) => tid != 0 && x.worker == Exited(code) && arg == Told(code, c)
        case CodeFreed(tid, _, arg) => tid != 0 && x.worker.Exited? && arg == Told(x.worker.code, c)
        case TidFreed(_, arg) => x.worker.Exited? && arg == Told(x.worker.code, c)
        case Copied(_, out) => x.worker.Exited? && x.worker.code != 0 && out == CallWait(rpc, x.input)
        case Returned(out) => x.worker.Exited? && x.worker.code != 0 && out == CallWait(rpc, x.input)
        case Broken(_) => x.denied
        case _ => true)
    && (!x.denied ==> !(x.worker.Renumbered? && x.worker.newRc == 0) && !(x.worker.Exited? && x.worker.code == 0))
    && (x.denied ==> DeniedTid(x.caller) || DeniedCode(x.worker))
  }

  ghost predicate Inv<I, O>(rpc: Rpc<I, O>, s: State<I, O>) {
    && (forall c :: 0 <= c < |s.calls| ==> Kept(s.table, s.calls[c], c) && Coherent(rpc, s.calls[c], c))
    && 0 !in s.table
    && (forall id :: id in s.table ==> Accounted(s, id))
    && (forall id :: id in s.others ==> Holds(s.table, id, Foreign(s.others[id])))
  }

  /** `t` differs from `s` just in what it has for call `c`. */
  ghost predicate DiffersAt(s: Table, t: Table, c: nat) {
    && (forall i :: i in s && i !in t ==> s[i] == Handle(c) || s[i] == Done(c) || s[i] == Argument(c))
    && (forall i :: i in s && i in t ==> s[i] == t[i])
    && (forall i :: i in t && i !in s ==> t[i] == Handle(c) || t[i] == Done(c) || t[i] == Argument(c))
  }

  /** A step for call `c` concerns that call only. */
  lemma OneCallSteps<I, O>(rpc: Rpc<I, O>, s: State<I, O>, t: State<I, O>, c: nat)
    requires Inv(rpc, s) && c < |s.calls| == |t.calls| && t.others == s.others && DiffersAt(s.table, t.table, c)
    requires forall x :: 0 <= x < |s.calls| && x != c ==> t.calls[x] == s.calls[x]
    requires Kept(t.table, t.calls[c], c) && Coherent(rpc, t.calls[c], c)
    requires forall i :: i in t.table && !t.table[i].Foreign? && t.table[i].c == c ==> Accounted(t, i)
    requires 0 !in t.table
    ensures Inv(rpc, t)
  {
    forall x | 0 <= x < |t.calls|
      ensures Kept(t.table, t.calls[x], x) && Coherent(rpc, t.calls[x], x)
    {
      if x != c {
        assert Kept(s.table, s.calls[x], x) && Coherent(rpc, s.calls[x], x);
      }
    }
    forall i | i in t.table
      ensures Accounted(t, i)
    {
      if i in s.table {
        assert Accounted(s, i);
      }
    }
  }

  lemma ServeIsCoherent<I, O>(rpc: Rpc<I, O>, s: State<I, O>, c: nat, id: nat)
    requires Inv(rpc, s) && Enabled(s, Serve(c, id))
    ensures Coherent(rpc, Step(rpc, s, Serve(c, id)).calls[c], c)
  {
    var x := s.calls[c];
    assert Kept(s.table, x, c) && Coherent(rpc, x, c);
    if x.caller.HasCode? && x.caller.code != 0 {
      assert x.caller.code in CodesOf(x);
    }
  }

  lemma ServeChangesOwn<I, O>(rpc: Rpc<I, O>, s: State<I, O>, c: nat, id: nat)
    requires Inv(rpc, s) && Enabled(s, Serve(c, id))
    ensures DiffersAt(s.table, Step(rpc, s, Serve(c, id)).table, c) && 0 !in Step(rpc, s, Serve(c, id)).table
  {
    var x := s.calls[c];
    assert Kept(s.table, x, c) && Coherent(rpc, x, c);
    if x.caller.HasArg? && x.caller.code != 0 {
      assert x.caller.code in CodesOf(x);
    }
  }

  lemma ServeKeepsOwn<I, O>(rpc: Rpc<I, O>, s: State<I, O>, c: nat, id: nat)
    requires Inv(rpc, s) && Enabled(s, Serve(c, id))
    ensures var t := Step(rpc, s, Serve(c, id)); Kept(t.table, t.calls[c], c)
  {
    var t := Step(rpc, s, Serve(c, id));
    var x := s.calls[c];
    assert Kept(s.table, x, c) && Coherent(rpc, x, c);
    ServeLeavesCodes(rpc, s, c, id);
    if x.caller.HasArg? && x.caller.code != 0 {
      assert x.caller.code in CodesOf(x);
    }
  }

  lemma ServeLeavesCodes<I, O>(rpc: Rpc<I, O>, s: State<I, O>, c: nat, id: nat)
    requires Inv(rpc, s) && Enabled(s, Serve(c, id))
    ensures CodesOf(Step(rpc, s, Serve(c, id)).calls[c]) <= CodesOf(s.calls[c])
  {
    assert Coherent(rpc, s.calls[c], c);
  }

  lemma ServeAccounts<I, O>(rpc: Rpc<I, O>, s: State<I, O>, c: nat, id: nat, i: nat)
    requires Inv(rpc, s) && Enabled(s, Serve(c, id))
    requires var t := Step(rpc, s, Serve(c, id)); i in t.table && !t.table[i].Foreign? && t.table[i].c == c
    ensures Accounted(Step(rpc, s, Serve(c, id)), i)
  {
    assert Coherent(rpc, s.calls[c], c);
    if i in s.table {
      assert Accounted(s, i);
    }
  }

  lemma ServeKeepsInv<I, O>(rpc: Rpc<I, O>, s: State<I, O>, c: nat, id: nat)
    requires Inv(rpc, s) && Enabled(s, Serve(c, id))
    ensures Inv(rpc, Step(rpc, s, Serve(c, id)))
  {
    ServeIsCoherent(rpc, s, c, id);
    ServeChangesOwn(rpc, s, c, id);
    ServeKeepsOwn(rpc, s, c, id);
    var t := Step(rpc, s, Serve(c, id));
    forall i | i in t.table && !t.table[i].Foreign? && t.table[i].c == c
      ensures Accounted(t, i)
    {
      ServeAccounts(rpc, s, c, id, i);
    }
    OneCallSteps(rpc, s, t, c);
  }

  lemma WorkIsCoherent<I, O>(rpc: Rpc<I, O>, s: State<I, O>, c: nat, id: nat)
    requires Inv(rpc, s) && Enabled(s, Work(c, id))
    ensures Coherent(rpc, Step(rpc, s, Work(c, id)).calls[c], c)
  {
    var x := s.calls[c];
    assert Kept(s.table, x, c) && Coherent(rpc, x, c);
    if x.worker.Numbered? {
      assert x.worker.rc in CodesOf(x);
    }
  }

  lemma WorkChangesOwn<I, O>(rpc: Rpc<I, O>, s: State<I, O>, c: nat, id: nat)
    requires Inv(rpc, s) && Enabled(s, Work(c, id))
    ensures DiffersAt(s.table, Step(rpc, s, Work(c, id)).table, c) && 0 !in Step(rpc, s, Work(c, id)).table
  {
    var x := s.calls[c];
    assert Kept(s.table, x, c);
    if x.worker.Renumbered? {
      assert Coherent(rpc, x, c);
      assert x.worker.rc in CodesOf(x);
    }
  }

  lemma WorkKeepsOwn<I, O>(rpc: Rpc<I, O>, s: State<I, O>, c: nat, id: nat)
    requires Inv(rpc, s) && Enabled(s, Work(c, id))
    ensures var t := Step(rpc, s, Work(c, id)); Kept(t.table, t.calls[c], c)
  {
    var t := Step(rpc, s, Work(c, id));
    var x := s.calls[c];
    assert Kept(s.table, x, c) && Coherent(rpc, x, c);
    if x.worker.Renumbered? {
      assert x.worker.rc in CodesOf(x);
    }
    forall i | i in CodesOf(t.calls[c])
      ensures Holds(t.table, i, Argument(c))
    {
      assert i in CodesOf(x) || (i == id && id != 0);
    }
  }

  lemma WorkAccounts<I, O>(rpc: Rpc<I, O>, s: State<I, O>, c: nat, id: nat, i: nat)
    requires Inv(rpc, s) && Enabled(s, Work(c, id))
    requires var t := Step(rpc, s, Work(c, id)); i in t.table && !t.table[i].Foreign? && t.table[i].c == c
    ensures Accounted(Step(rpc, s, Work(c, id)), i)
  {
    assert Coherent(rpc, s.calls[c], c);
    if i in s.table {
      assert Accounted(s, i);
    }
  }

  lemma WorkKeepsInv<I, O>(rpc: Rpc<I, O>, s: State<I, O>, c: nat, id: nat)
    requires Inv(rpc, s) && Enabled(s, Work(c, id))
    ensures Inv(rpc, Step(rpc, s, Work(c, id)))
  {
    WorkIsCoherent(rpc, s, c, id);
    WorkChangesOwn(rpc, s, c, id);
    WorkKeepsOwn(rpc, s, c, id);
    var t := Step(rpc, s, Work(c, id));
    forall i | i in t.table && !t.table[i].Foreign? && t.table[i].c == c
      ensures Accounted(t, i)
    {
      WorkAccounts(rpc, s, c, id, i);
    }
    OneCallSteps(rpc, s, t, c);
  }

  lemma StepKeepsInv<I, O>(rpc: Rpc<I, O>, s: State<I, O>, a: Action<I>)
    requires Inv(rpc, s) && Enabled(s, a)
    ensures Inv(rpc, Step(rpc, s, a))
  {
    match a
    case Serve(c, id) => ServeKeepsInv(rpc, s, c, id);
    case Work(c, id) => WorkKeepsInv(rpc, s, c, id);
    case _ =>
      var t := Step(rpc, s, a);
      forall x | 0 <= x < |t.calls|
        ensures Kept(t.table, t.calls[x], x) && Coherent(rpc, t.calls[x], x)
      {
        if x < |s.calls| {
          assert Kept(s.table, s.calls[x], x) && Coherent(rpc, s.calls[x], x);
        }
      }
      forall i | i in t.table
        ensures Accounted(t, i)
      {
        if i in s.table {
          assert Accounted(s, i);
        }
      }
  }

  // All runs

  /** A server which has made no call yet. */
  ghost predicate Initial<I, O>(s: State<I, O>) {
    s.calls == [] && 0 !in s.others && s.table == map id | id in s.others :: Foreign(s.others[id])
  }

  ghost predicate IsStep<I, O>(rpc: Rpc<I, O>, s: State<I, O>, a: Action<I>, t: State<I, O>) {
    Enabled(s, a) && t == Step(rpc, s, a)
  }

  /** The states of a run which takes the given actions. */
  ghost predicate IsRun<I, O>(rpc: Rpc<I, O>, states: seq<State<I, O>>, actions: seq<Action<I>>) {
    && |states| == |actions| + 1 && Initial(states[0])
    && forall k :: 0 <= k < |actions| ==> IsStep(rpc, states[k], actions[k], states[k + 1])
  }

  lemma {:induction false} RunKeepsInv<I, O>(rpc: Rpc<I, O>, states: seq<State<I, O>>, actions: seq<Action<I>>, k: nat)
    requires IsRun(rpc, states, actions) && k <= |actions|
    ensures Inv(rpc, states[k])
  {
    if k == 0 {
      assert Inv(rpc, states[0]);
    } else {
      RunKeepsInv(rpc, states, actions, k - 1);
      assert IsStep(rpc, states[k - 1], actions[k - 1], states[k]);
      StepKeepsInv(rpc, states[k - 1], actions[k - 1]);
    }
  }

  /** In every run RCF_RPC_CALL and RCF_RPC_WAIT give what RCF_RPC_CALL_WAIT would have given, and the
      argument is freed only when its thread has gone, unless the table had no room for the thread
      or for the argument. Then, and only then, there is an error instead. */
  lemma WaitReturnsCallWait<I, O>(rpc: Rpc<I, O>, states: seq<State<I, O>>, actions: seq<Action<I>>, k: nat, c: nat)
    requires IsRun(rpc, states, actions) && k <= |actions| && c < |states[k].calls|
    ensures var x := states[k].calls[c];
            && (x.caller.Broken? ==> x.denied)
            && (x.caller.Returned? ==> !x.denied && x.caller.out == CallWait(rpc, x.input) && x.worker.Exited?)
  {
    RunKeepsInv(rpc, states, actions, k);
    assert Coherent(rpc, states[k].calls[c], c);
  }

  /** The exit code of a thread never looks like that of a running one, and until the join has
      freed it leads to the pointer which the thread gave to thread_exit(). */
  lemma ExitCodeLeadsToArgument<I, O>(rpc: Rpc<I, O>, states: seq<State<I, O>>, actions: seq<Action<I>>, k: nat, c: nat)
    requires IsRun(rpc, states, actions) && k <= |actions| && c < |states[k].calls|
    ensures var x := states[k].calls[c];
            && (x.worker.Exited? <==> ExitCode(x.worker) != STILL_ACTIVE)
            && (x.worker.Exited? && !Joined(x.caller) && !x.denied ==>
                Get(states[k].table, x.worker.code) == Some(Argument(c)))
  {
    RunKeepsInv(rpc, states, actions, k);
    var x := states[k].calls[c];
    assert Kept(states[k].table, x, c) && Coherent(rpc, x, c);
    if x.worker.Exited? && !Joined(x.caller) && !x.denied {
      assert x.worker.code in CodesOf(x);
    }
  }

  /** What a client learns about a call through the identifier of its `done` flag. */
  predicate SaysDone<I, O>(s: State<I, O>, done: nat) {
    var p := Get(s.table, done);
    p.Some? && p.value.Done? && p.value.c < |s.calls| && s.calls[p.value.c].arg.done
  }

  /** The flag of a call shows that the output is final. */
  lemma DoneMeansFinal<I, O>(rpc: Rpc<I, O>, states: seq<State<I, O>>, actions: seq<Action<I>>, k: nat, c: nat)
    requires IsRun(rpc, states, actions) && k <= |actions| && c < |states[k].calls| && states[k].calls[c].caller.Called?
    requires SaysDone(states[k], states[k].calls[c].caller.done)
    ensures states[k].calls[c].arg.out == CallWait(rpc, states[k].calls[c].input)
  {
    RunKeepsInv(rpc, states, actions, k);
    assert Kept(states[k].table, states[k].calls[c], c) && Coherent(rpc, states[k].calls[c], c);
  }

  /** As long as a call has the identifier of its flag, it shows that the thread is done just if the
      thread has acted and has set the flag, which it has when it exits. */
  lemma DoneIsSeen<I, O>(rpc: Rpc<I, O>, states: seq<State<I, O>>, actions: seq<Action<I>>, k: nat, c: nat)
    requires IsRun(rpc, states, actions) && k <= |actions| && c < |states[k].calls|
    requires DoneOf(states[k].calls[c].caller).Some? && DoneOf(states[k].calls[c].caller).value != 0
    ensures var w := states[k].calls[c].worker;
            SaysDone(states[k], DoneOf(states[k].calls[c].caller).value) <==> !w.Acting? && !w.Acted?
  {
    RunKeepsInv(rpc, states, actions, k);
    assert Kept(states[k].table, states[k].calls[c], c) && Coherent(rpc, states[k].calls[c], c);
  }

  lemma ReturnedOwnsNothing<I, O>(rpc: Rpc<I, O>, s: State<I, O>, id: nat)
    requires Inv(rpc, s) && id in s.table
    requires !s.table[id].Foreign? ==> s.table[id].c < |s.calls| && s.calls[s.table[id].c].caller.Returned?
    ensures s.table[id].Foreign?
  {
    assert Accounted(s, id);
    assert forall c :: 0 <= c < |s.calls| ==> Coherent(rpc, s.calls[c], c);
  }

  /** Once all calls are over, an identifier which one of them has left in the table is of a call for
      which the table had no room. */
  lemma OnlyDeniedCallsLeave<I, O>(rpc: Rpc<I, O>, states: seq<State<I, O>>, actions: seq<Action<I>>, k: nat, id: nat)
    requires IsRun(rpc, states, actions) && k <= |actions| && id in states[k].table && !states[k].table[id].Foreign?
    requires forall c :: 0 <= c < |states[k].calls| ==>
               states[k].calls[c].caller.Returned? || states[k].calls[c].caller.Broken?
    ensures states[k].table[id].c < |states[k].calls| && states[k].calls[states[k].table[id].c].denied
  {
    RunKeepsInv(rpc, states, actions, k);
    var s := states[k];
    assert Accounted(s, id);
    var c := s.table[id].c;
    assert Coherent(rpc, s.calls[c], c);
  }

  /** The identifiers which lead to call `c`. */
  ghost function LeadTo(table: Table, c: nat): set<nat> {
    set id | id in table && !table[id].Foreign? && table[id].c == c
  }

  /** A call which is over and whose thread has gone has left nothing if it has returned, and else
      just the identifier of its `done` flag and the exit code, as far as there was room for them. */
  lemma WhatCallsLeave<I, O>(rpc: Rpc<I, O>, states: seq<State<I, O>>, actions: seq<Action<I>>, k: nat, c: nat)
    requires IsRun(rpc, states, actions) && k <= |actions| && c < |states[k].calls|
    requires states[k].calls[c].caller.Broken? ==> states[k].calls[c].worker.Exited?
    ensures var x := states[k].calls[c];
            && (x.caller.Returned? ==> LeadTo(states[k].table, c) == {})
            && (x.caller.Broken? ==> LeadTo(states[k].table, c) == {x.caller.done, x.worker.code} - {0})
  {
    RunKeepsInv(rpc, states, actions, k);
    var table, x := states[k].table, states[k].calls[c];
    assert Kept(table, x, c) && Coherent(rpc, x, c);
    assert forall id :: id in LeadTo(table, c) ==> Accounted(states[k], id);
    if x.caller.Broken? {
      assert CodesOf(x) == {x.worker.code} - {0};
      assert forall id :: id in CodesOf(x) ==> id in LeadTo(table, c);
    }
  }

  /** Once all calls have been waited for, the table has just what the rest of the server put there. */
  lemma TableIsRestored<I, O>(rpc: Rpc<I, O>, states: seq<State<I, O>>, actions: seq<Action<I>>, k: nat)
    requires IsRun(rpc, states, actions) && k <= |actions|
    requires forall c :: 0 <= c < |states[k].calls| ==> states[k].calls[c].caller.Returned?
    ensures states[k].table == map id | id in states[k].others :: Foreign(states[k].others[id])
  {
    RunKeepsInv(rpc, states, actions, k);
    var s := states[k];
    forall id | id in s.table
      ensures id in s.others && s.table[id] == Foreign(s.others[id])
    {
      assert Accounted(s, id);
      ReturnedOwnsNothing(rpc, s, id);
    }
  }

  // Every call ends

  function CallerStepsLeft<O>(x: Caller<O>): nat {
    match x
    case Created => 9
    case HasTid(_) => 8
    case Called(_, _) => 7
    case Joining(_, _, _) => 6
    case HasCode(_, _, _) => 5
    case HasArg(_, _, _, _) => 4
    case CodeFreed(_, _, _) => 3
    case TidFreed(_, _) => 2
    case Copied(_, _) => 1
    case _ => 0
  }

  function WorkerStepsLeft(x: Worker): nat {
    match x
    case Acting => 5
    case Acted => 4
    case Marked => 3
    case Numbered(_) => 2
    case Renumbered(_, _) => 1
    case Exited(_) => 0
  }

  function StepsLeft<I, O>(x: Call<I, O>): nat {
    CallerStepsLeft(x.caller) + WorkerStepsLeft(x.worker)
  }

  lemma ServeAdvances<I, O>(rpc: Rpc<I, O>, s: State<I, O>, c: nat, id: nat)
    requires Inv(rpc, s) && Enabled(s, Serve(c, id)) && s.calls[c].worker.Exited?
    ensures CallerStepsLeft(Step(rpc, s, Serve(c, id)).calls[c].caller) < CallerStepsLeft(s.calls[c].caller)
  {
    assert Coherent(rpc, s.calls[c], c);
  }

  /** While a call is not over, its thread or its server has a step which brings the end nearer,
      whichever identifier the table gives. */
  lemma CallGoesOn<I, O>(rpc: Rpc<I, O>, states: seq<State<I, O>>, actions: seq<Action<I>>, k: nat, c: nat, id: nat)
    returns (a: Action<I>)
    requires IsRun(rpc, states, actions) && k <= |actions| && c < |states[k].calls|
    requires !states[k].calls[c].caller.Returned? && !states[k].calls[c].caller.Broken? && Fresh(states[k].table, id)
    ensures a == (if states[k].calls[c].worker.Exited? then Serve(c, id) else Work(c, id))
    ensures Enabled(states[k], a)
    ensures StepsLeft(Step(rpc, states[k], a).calls[c]) < StepsLeft(states[k].calls[c])
  {
    RunKeepsInv(rpc, states, actions, k);
    var x := states[k].calls[c];
    assert Coherent(rpc, x, c);
    if x.worker.Exited? {
      a := Serve(c, id);
      ServeAdvances(rpc, states[k], c, id);
    } else {
      a := Work(c, id);
    }
  }

  /** No step at all takes a call away from its end. */
  lemma NoStepGoesBack<I, O>(rpc: Rpc<I, O>, states: seq<State<I, O>>, actions: seq<Action<I>>, k: nat, c: nat)
    requires IsRun(rpc, states, actions) && k < |actions| && c < |states[k].calls|
    ensures c < |states[k + 1].calls| && StepsLeft(states[k + 1].calls[c]) <= StepsLeft(states[k].calls[c])
  {
    assert IsStep(rpc, states[k], actions[k], states[k + 1]);
  }
}
