/** Test results of include/te_test_result.h: a status and two tail queues of strings. */
module TestResult {
  import opened Wrappers
  import opened Sequences
  import opened TailQueue

  datatype Status = Incomplete | Unspec | Empty | Skipped | Faked | Passed | Failed

  /** A verdict; its string pointer may be null. */
  type Verdict = Entry<Option<string>>
  type Verdicts = Head<Option<string>>

  function Strings(s: seq<Verdict>): (r: seq<Option<string>>)
    ensures |r| == |s| && forall i :: 0 <= i < |s| ==> r[i] == s[i].item
  {
    seq(|s|, i requires 0 <= i < |s| => s[i].item)
  }

  /** Requests one verdict takes: the node and, unless it is null, the string. */
  function Requests(v: Option<string>): nat {
    if v.Some? then 2 else 1
  }

  /** Requests which the verdicts from position `i` on take. */
  function AllRequests(vs: seq<Option<string>>, i: nat): nat
    requires i <= |vs|
    decreases |vs| - i
  {
    if i == |vs| then 0 else Requests(vs[i]) + AllRequests(vs, i + 1)
  }

  /** How many of the verdicts from position `i` on are copied if request `k` is met exactly
      when `grants(k)`, their first one being request `from`. */
  function Copied(vs: seq<Option<string>>, i: nat, grants: nat -> bool, from: nat): (n: nat)
    requires i <= |vs|
    ensures i + n <= |vs|
    decreases |vs| - i
  {
    if i == |vs| || !grants(from) || (vs[i].Some? && !grants(from + 1)) then 0
    else 1 + Copied(vs, i + 1, grants, from + Requests(vs[i]))
  }

  /** How many requests are made for the verdicts from position `i` on, the last of them being the
      first one which is not met, if there is any. */
  function Asked(vs: seq<Option<string>>, i: nat, grants: nat -> bool, from: nat): nat
    requires i <= |vs|
    decreases |vs| - i
  {
    if i == |vs| then 0
    else if !grants(from) then 1
    else if vs[i].Some? && !grants(from + 1) then 2
    else Requests(vs[i]) + Asked(vs, i + 1, grants, from + Requests(vs[i]))
  }

  /** Requests which the first `n` verdicts from position `i` on take. */
  function RequestsFor(vs: seq<Option<string>>, i: nat, n: nat): nat
    requires i + n <= |vs|
    decreases n
  {
    if n == 0 then 0 else Requests(vs[i]) + RequestsFor(vs, i + 1, n - 1)
  }

  /** What is copied is the longest prefix whose requests are all met. */
  lemma {:induction false} CopiedIsLongest(vs: seq<Option<string>>, i: nat, n: nat, grants: nat -> bool, from: nat)
    requires i + n <= |vs|
    ensures n <= Copied(vs, i, grants, from) <==> Granted(grants, from, RequestsFor(vs, i, n))
    decreases n
  {
    if n > 0 {
      var m := Requests(vs[i]);
      CopiedIsLongest(vs, i + 1, n - 1, grants, from + m);
      GrantedInParts(grants, from, m, RequestsFor(vs, i + 1, n - 1));
      assert Granted(grants, from, m) <==> grants(from) && (vs[i].Some? ==> grants(from + 1));
    }
  }

  /** No request is made after one which is not met. */
  lemma {:induction false} AskedUntilRefused(vs: seq<Option<string>>, i: nat, grants: nat -> bool, from: nat)
    requires i <= |vs|
    ensures var asked := Asked(vs, i, grants, from);
            if i + Copied(vs, i, grants, from) == |vs|
            then asked == AllRequests(vs, i) && Granted(grants, from, asked)
            else 0 < asked <= AllRequests(vs, i) && !grants(from + asked - 1) && Granted(grants, from, asked - 1)
    decreases |vs| - i
  {
    if i < |vs| && grants(from) && (vs[i].Some? ==> grants(from + 1)) {
      var m := Requests(vs[i]);
      var rest := Asked(vs, i + 1, grants, from + m);
      AskedUntilRefused(vs, i + 1, grants, from + m);
      GrantedInParts(grants, from, m, rest);
      if rest > 0 {
        GrantedInParts(grants, from, m, rest - 1);
      }
    }
  }

  /** The next `n` requests after the first `from` ones are all met. */
  ghost predicate Granted(grants: nat -> bool, from: nat, n: nat) {
    forall k :: from <= k < from + n ==> grants(k)
  }

  lemma GrantedInParts(grants: nat -> bool, from: nat, m: nat, n: nat)
    ensures Granted(grants, from, m + n) <==> Granted(grants, from, m) && Granted(grants, from + m, n)
  {
    if Granted(grants, from, m) && Granted(grants, from + m, n) {
      forall k | from <= k < from + (m + n)
        ensures grants(k)
      {
        assert k < from + m || from + m <= k;
      }
    }
  }

  /** Everything is copied if and only if every single request is met. */
  lemma {:induction false} CopiedAll(vs: seq<Option<string>>, i: nat, grants: nat -> bool, from: nat)
    requires i <= |vs|
    ensures i + Copied(vs, i, grants, from) == |vs| <==> Granted(grants, from, AllRequests(vs, i))
    decreases |vs| - i
  {
    if i == |vs| {
    } else {
      var n := Requests(vs[i]);
      CopiedAll(vs, i + 1, grants, from + n);
      GrantedInParts(grants, from, n, AllRequests(vs, i + 1));
      assert Granted(grants, from, n) <==> grants(from) && (vs[i].Some? ==> grants(from + 1));
    }
  }

  /** The allocator. Request `i` is met or not as `grants` says. */
  class Allocator {
    const grants: nat -> bool
    var requests: nat
    /** Nodes which are allocated, each with its string unless that is null. */
    ghost var nodes: set<Verdict>
    /** Results which are allocated. */
    ghost var results: set<Result>

    constructor (grants: nat -> bool)
      ensures this.grants == grants && requests == 0 && nodes == {} && results == {}
    {
      this.grants := grants;
      requests, nodes, results := 0, {}, {};
    }

    method Request() returns (ok: bool)
      modifies this`requests
      ensures ok == grants(old(requests)) && requests == old(requests) + 1
    {
      ok := grants(requests);
      requests := requests + 1;
    }

    /** te_test_result_free_verdict(): the string, if any, and the node, which has to be allocated. */
    method FreeVerdict(v: Verdict)
      requires v in nodes
      modifies this`nodes
      ensures nodes == old(nodes) - {v}
    {
      nodes := nodes - {v};
    }

    /** All the entries are allocated. */
    ghost predicate Holds(s: seq<Verdict>)
      reads this
    {
      forall i :: 0 <= i < |s| ==> s[i] in nodes
    }
  }

  ghost function Nodes(s: seq<Verdict>): set<Verdict> {
    set i | 0 <= i < |s| :: s[i]
  }

  /** One round of te_test_result_free_verdicts(). */
  method FreeFirst(mem: Allocator, verdicts: Verdicts)
    requires verdicts.Valid() && verdicts.elems != [] && verdicts.elems[0] in mem.nodes
    modifies verdicts, verdicts.elems, mem`nodes
    ensures verdicts.Valid() && verdicts.elems == old(verdicts.elems)[1..]
    ensures mem.nodes == old(mem.nodes) - {old(verdicts.elems)[0]}
  {
    var v := verdicts.first;
    ghost var all := verdicts.elems;
    assert all[0] == v && Distinct(all);
    FrontRemoved(all);
    verdicts.Remove(v);
    mem.FreeVerdict(v);
  }

  lemma FrontRemoved(s: seq<Verdict>)
    requires s != [] && Distinct(s)
    ensures Position(s, s[0]) == 0 && Without(s, 0) == s[1..]
  {
  }

  /** te_test_result_free_verdicts(). Each node is freed, and since FreeVerdict() wants it
      allocated, none is freed twice. */
  method FreeVerdicts(mem: Allocator, verdicts: Verdicts)
    requires verdicts.Valid() && mem.Holds(verdicts.elems)
    modifies verdicts, verdicts.elems, mem`nodes
    ensures verdicts.Valid() && verdicts.elems == []
    ensures mem.nodes == old(mem.nodes) - Nodes(old(verdicts.elems))
  {
    ghost var all, k := verdicts.elems, 0;
    assert Distinct(all);
    while verdicts.first != null
      invariant verdicts.Valid() && k <= |all| && verdicts.elems == all[k..]
      invariant mem.nodes == old(mem.nodes) - Nodes(all[..k])
      decreases |all| - k
    {
      NextNode(all, k);
      FreeFirst(mem, verdicts);
      k := k + 1;
    }
    assert all[..k] == all;
  }

  lemma NextNode(s: seq<Verdict>, k: nat)
    requires k < |s| && Distinct(s)
    ensures s[k..][0] == s[k] && s[k] !in Nodes(s[..k]) && s[k..][1..] == s[k + 1..]
    ensures Nodes(s[..k + 1]) == Nodes(s[..k]) + {s[k]}
  {
    assert s[..k + 1] == s[..k] + [s[k]];
    AppendedOne(s[..k], s[k]);
  }

  /** After `n` copies, `from` requests have been made. */
  ghost predicate Progress(vs: seq<Option<string>>, grants: nat -> bool, start: nat, n: nat, from: nat)
    requires n <= |vs|
  {
    && Copied(vs, 0, grants, start) == n + Copied(vs, n, grants, from)
    && start + AllRequests(vs, 0) == from + AllRequests(vs, n)
    && start + Asked(vs, 0, grants, start) == from + Asked(vs, n, grants, from)
  }

  lemma NextRound(vs: seq<Option<string>>, grants: nat -> bool, start: nat, n: nat, from: nat)
    requires n < |vs| && Progress(vs, grants, start, n, from)
    ensures if grants(from) && (vs[n].Some? ==> grants(from + 1))
            then Progress(vs, grants, start, n + 1, from + Requests(vs[n]))
            else Copied(vs, 0, grants, start) == n
                 && start + Asked(vs, 0, grants, start) == from + if grants(from) then 2 else 1
  {
  }

  /** The requests for one copy: for the node, and for its string unless that is null. */
  method RequestCopy(mem: Allocator, item: Option<string>,
                     ghost texts: seq<Option<string>>, ghost start: nat, ghost n: nat)
    returns (ok: bool)
    requires n < |texts| && texts[n] == item && Progress(texts, mem.grants, start, n, mem.requests)
    modifies mem`requests
    ensures ok ==> Progress(texts, mem.grants, start, n + 1, mem.requests)
    ensures !ok ==> Copied(texts, 0, mem.grants, start) == n
    ensures !ok ==> mem.requests == start + Asked(texts, 0, mem.grants, start)
  {
    NextRound(texts, mem.grants, start, n, mem.requests);
    ok := mem.Request();
    if ok && item.Some? {
      ok := mem.Request();
    }
  }

  /** One round of te_test_result_verdicts_cpy(), with the account of the requests; `n` copies have
      been made. */
  method CopyOne(mem: Allocator, dst: Verdicts, v: Verdict,
                 ghost texts: seq<Option<string>>, ghost start: nat, ghost n: nat)
    returns (ok: bool, ghost dup: Verdict)
    requires dst.Valid() && n < |texts| && texts[n] == v.item && Progress(texts, mem.grants, start, n, mem.requests)
    modifies dst, EntryOf(dst.last)`next, mem`requests, mem`nodes
    ensures dst.Valid() && fresh(dup) && dup.item == v.item
    ensures if ok then dst.elems == old(dst.elems) + [dup] && dst.last == NextOf(dup)
            else dst.elems == old(dst.elems) && dst.last == old(dst.last)
    ensures mem.nodes == if ok then old(mem.nodes) + {dup} else old(mem.nodes)
    ensures ok ==> Progress(texts, mem.grants, start, n + 1, mem.requests)
    ensures !ok ==> Copied(texts, 0, mem.grants, start) == n
    ensures !ok ==> mem.requests == start + Asked(texts, 0, mem.grants, start)
  {
    ok := RequestCopy(mem, v.item, texts, start, n);
    var node := new Entry<Option<string>>(v.item);
    dup := node;
    if !ok {
      return;
    }
    mem.nodes := mem.nodes + {node};
    dst.InsertTail(node);
  }

  /** The copying loop stands at `v`, with `copies` behind the verdicts `olds` in the destination; the
      entries `all` to copy form a chain. */
  ghost predicate Copying(dst: Verdicts, all: seq<Verdict>, olds: seq<Verdict>, copies: seq<Verdict>,
                          v: Entry?<Option<string>>)
    reads dst, dst.elems, all
  {
    && dst.Valid() && dst.elems == olds + copies && Matching(copies, Strings(all))
    && (forall i {:trigger all[i].next} :: 0 <= i < |all| ==> all[i].next == After(all, i))
    && (forall i :: 0 <= i < |all| ==> all[i] !in EntryOf(dst.last))
    && v == if |copies| == |all| then null else all[|copies|]
  }

  /** One round and the step to the next verdict. */
  method CopyNext(mem: Allocator, dst: Verdicts, v: Verdict, ghost all: seq<Verdict>, ghost olds: seq<Verdict>,
                  ghost copies: seq<Verdict>, ghost start: nat)
    returns (ok: bool, next: Entry?<Option<string>>, ghost dup: Verdict)
    requires Copying(dst, all, olds, copies, v)
    requires Progress(Strings(all), mem.grants, start, |copies|, mem.requests)
    modifies dst, EntryOf(dst.last)`next, mem`requests, mem`nodes
    ensures fresh(dup) && (ok ==> dst.last == NextOf(dup))
    ensures if ok then Copying(dst, all, olds, copies + [dup], next) else dst.Valid() && dst.elems == olds + copies
    ensures mem.nodes == if ok then old(mem.nodes) + {dup} else old(mem.nodes)
    ensures if ok then Progress(Strings(all), mem.grants, start, |copies| + 1, mem.requests)
            else Copied(Strings(all), 0, mem.grants, start) == |copies|
                 && mem.requests == start + Asked(Strings(all), 0, mem.grants, start)
  {
    next := null;
    ok, dup := CopyOne(mem, dst, v, Strings(all), start, |copies|);
    if ok {
      AppendedCopy(olds, copies, dup, Strings(all));
      next := v.next;
    }
  }

  /** The loop of te_test_result_verdicts_cpy(), with the account of the requests. */
  method CopyWhileGranted(mem: Allocator, dst: Verdicts, src: Verdicts)
    returns (ok: bool, ghost copies: seq<Verdict>)
    requires dst != src && dst.Valid() && src.Valid()
    requires forall i :: 0 <= i < |src.elems| ==> src.elems[i] !in EntryOf(dst.last)
    modifies dst, EntryOf(dst.last)`next, mem`requests, mem`nodes
    ensures dst.Valid() && dst.elems == old(dst.elems) + copies
    ensures mem.nodes == old(mem.nodes) + Nodes(copies)
    ensures Matching(copies, Strings(src.elems)) && forall i :: 0 <= i < |copies| ==> fresh(copies[i])
    ensures var texts := Strings(src.elems);
            if ok then |copies| == |texts| && Progress(texts, mem.grants, old(mem.requests), |copies|, mem.requests)
            else |copies| < |texts| && Copied(texts, 0, mem.grants, old(mem.requests)) == |copies|
                 && mem.requests == old(mem.requests) + Asked(texts, 0, mem.grants, old(mem.requests))
  {
    ghost var all, olds, start, end := src.elems, dst.elems, mem.requests, dst.last;
    copies := [];
    var v := src.first;
    while v != null
      invariant Copying(dst, all, olds, copies, v)
      invariant dst.last == end || (dst.last.NextOf? && fresh(dst.last.entry))
      invariant forall i :: 0 <= i < |copies| ==> fresh(copies[i])
      invariant mem.nodes == old(mem.nodes) + Nodes(copies)
      invariant Progress(Strings(all), mem.grants, start, |copies|, mem.requests)
      decreases |all| - |copies|
    {
      ghost var dup;
      ok, v, dup := CopyNext(mem, dst, v, all, olds, copies, start);
      if !ok {
        return;
      }
      AppendedOne(copies, dup);
      copies := copies + [dup];
    }
    ok := true;
  }

  /** te_test_result_verdicts_cpy(). On failure the copies made so far stay in the queue. */
  method VerdictsCpy(mem: Allocator, dst: Verdicts, src: Verdicts, ghost texts: seq<Option<string>>)
    returns (ok: bool, ghost copies: seq<Verdict>)
    requires dst != src && dst.Valid() && src.Valid() && texts == Strings(src.elems)
    requires forall i :: 0 <= i < |src.elems| ==> src.elems[i] !in EntryOf(dst.last)
    modifies dst, EntryOf(dst.last)`next, mem`requests, mem`nodes
    ensures dst.Valid() && dst.elems == old(dst.elems) + copies
    ensures mem.nodes == old(mem.nodes) + Nodes(copies)
    ensures Matching(copies, texts) && |copies| == Copied(texts, 0, mem.grants, old(mem.requests))
    ensures forall i :: 0 <= i < |copies| ==> fresh(copies[i])
    ensures ok <==> |copies| == |texts|
    ensures ok <==> Granted(mem.grants, old(mem.requests), AllRequests(texts, 0))
    ensures ok ==> mem.requests == old(mem.requests) + AllRequests(texts, 0)
    ensures mem.requests == old(mem.requests) + Asked(texts, 0, mem.grants, old(mem.requests))
  {
    CopiedAll(texts, 0, mem.grants, mem.requests);
    ok, copies := CopyWhileGranted(mem, dst, src);
  }

  /** The copies for a queue which is still empty. */
  method CopyToEmpty(mem: Allocator, dst: Verdicts, src: Verdicts, ghost texts: seq<Option<string>>)
    returns (ok: bool)
    requires dst != src && dst.Valid() && src.Valid() && dst.elems == [] && texts == Strings(src.elems)
    modifies dst, mem`requests, mem`nodes
    ensures dst.Valid() && Matching(dst.elems, texts)
    ensures forall i :: 0 <= i < |dst.elems| ==> fresh(dst.elems[i])
    ensures mem.nodes == old(mem.nodes) + Nodes(dst.elems)
    ensures |dst.elems| == Copied(texts, 0, mem.grants, old(mem.requests))
    ensures ok <==> |dst.elems| == |texts|
    ensures mem.requests == old(mem.requests) + Asked(texts, 0, mem.grants, old(mem.requests))
  {
    ghost var copies;
    ok, copies := VerdictsCpy(mem, dst, src, texts);
    assert dst.elems == copies;
  }

  /** The verdicts have the first of these strings, in order. */
  ghost predicate Matching(s: seq<Verdict>, texts: seq<Option<string>>) {
    |s| <= |texts| && forall i :: 0 <= i < |s| ==> s[i].item == texts[i]
  }

  lemma AppendedCopy(olds: seq<Verdict>, s: seq<Verdict>, v: Verdict, texts: seq<Option<string>>)
    requires Matching(s, texts) && |s| < |texts| && v.item == texts[|s|]
    ensures Matching(s + [v], texts) && Nodes(s + [v]) == Nodes(s) + {v}
    ensures olds + s + [v] == olds + (s + [v])
  {
    AppendedOne(s, v);
  }

  lemma AppendedOne(s: seq<Verdict>, v: Verdict)
    ensures Nodes(s + [v]) == Nodes(s) + {v}
  {
    assert forall i :: 0 <= i < |s| ==> (s + [v])[i] == s[i];
    assert (s + [v])[|s|] == v;
  }

  class Result {
    var status: Status
    const verdicts: Verdicts
    const artifacts: Verdicts

    /** te_test_result_init(). */
    constructor ()
      ensures Valid() && status == Incomplete && fresh(verdicts) && fresh(artifacts)
      ensures verdicts.elems == [] && artifacts.elems == []
    {
      status := Incomplete;
      verdicts := new Head();
      artifacts := new Head();
    }

    ghost predicate Valid()
      reads this, verdicts, artifacts, verdicts.elems, artifacts.elems
    {
      && verdicts != artifacts && verdicts.Valid() && artifacts.Valid()
      && forall i, j :: 0 <= i < |verdicts.elems| && 0 <= j < |artifacts.elems| ==>
           verdicts.elems[i] != artifacts.elems[j]
    }

    /** te_test_result_clean(). */
    method Clean(mem: Allocator)
      requires Valid() && mem.Holds(verdicts.elems) && mem.Holds(artifacts.elems)
      modifies verdicts, verdicts.elems, artifacts, artifacts.elems, mem`nodes
      ensures Valid() && verdicts.elems == [] && artifacts.elems == []
      ensures mem.nodes == old(mem.nodes) - Nodes(old(verdicts.elems)) - Nodes(old(artifacts.elems))
    {
      FreeVerdicts(mem, verdicts);
      FreeVerdicts(mem, artifacts);
    }

    /** te_test_result_free(), for a result which is allocated. */
    method Free(mem: Allocator)
      requires Valid() && mem.Holds(verdicts.elems) && mem.Holds(artifacts.elems) && this in mem.results
      modifies verdicts, verdicts.elems, artifacts, artifacts.elems, mem`nodes, mem`results
      ensures mem.nodes == old(mem.nodes) - Nodes(old(verdicts.elems)) - Nodes(old(artifacts.elems))
      ensures mem.results == old(mem.results) - {this}
    {
      Clean(mem);
      mem.results := mem.results - {this};
    }
  }

  /** Requests te_test_result_dup() makes after the one for the result itself. */
  ghost function DupRequests(r: Result): nat
    reads r.verdicts, r.artifacts
  {
    AllRequests(Strings(r.verdicts.elems), 0) + AllRequests(Strings(r.artifacts.elems), 0)
  }

  /** Requests te_test_result_dup() then makes: those for the artifacts only if all for the verdicts
      are met. */
  function InTurn(verdicts: seq<Option<string>>, artifacts: seq<Option<string>>, grants: nat -> bool, from: nat): nat {
    var asked := Asked(verdicts, 0, grants, from);
    if Copied(verdicts, 0, grants, from) < |verdicts| then asked
    else asked + Asked(artifacts, 0, grants, from + asked)
  }

  ghost function DupAsked(r: Result, grants: nat -> bool, from: nat): nat
    reads r.verdicts, r.artifacts
  {
    InTurn(Strings(r.verdicts.elems), Strings(r.artifacts.elems), grants, from)
  }

  /** The two calls of te_test_result_verdicts_cpy() in te_test_result_dup(). */
  method CopyInTurn(mem: Allocator, toVerdicts: Verdicts, toArtifacts: Verdicts, fromVerdicts: Verdicts,
                    fromArtifacts: Verdicts, ghost verdicts: seq<Option<string>>, ghost artifacts: seq<Option<string>>)
    returns (ok: bool)
    requires toVerdicts != toArtifacts && {toVerdicts, toArtifacts} !! {fromVerdicts, fromArtifacts}
    requires toVerdicts.Valid() && toArtifacts.Valid() && toVerdicts.elems == [] && toArtifacts.elems == []
    requires fromVerdicts.Valid() && fromArtifacts.Valid()
    requires verdicts == Strings(fromVerdicts.elems) && artifacts == Strings(fromArtifacts.elems)
    modifies toVerdicts, toArtifacts, mem`requests, mem`nodes
    ensures toVerdicts.Valid() && toArtifacts.Valid()
    ensures forall i, j :: 0 <= i < |toVerdicts.elems| && 0 <= j < |toArtifacts.elems| ==>
              toVerdicts.elems[i] != toArtifacts.elems[j]
    ensures forall i :: 0 <= i < |toVerdicts.elems| ==> fresh(toVerdicts.elems[i])
    ensures forall i :: 0 <= i < |toArtifacts.elems| ==> fresh(toArtifacts.elems[i])
    ensures Matching(toVerdicts.elems, verdicts) && Matching(toArtifacts.elems, artifacts)
    ensures mem.nodes == old(mem.nodes) + Nodes(toVerdicts.elems) + Nodes(toArtifacts.elems)
    ensures mem.requests == old(mem.requests) + InTurn(verdicts, artifacts, mem.grants, old(mem.requests))
    ensures var next := old(mem.requests) + Asked(verdicts, 0, mem.grants, old(mem.requests));
            var complete := Copied(verdicts, 0, mem.grants, old(mem.requests)) == |verdicts|;
            && |toVerdicts.elems| == Copied(verdicts, 0, mem.grants, old(mem.requests))
            && |toArtifacts.elems| == (if complete then Copied(artifacts, 0, mem.grants, next) else 0)
            && (ok <==> complete && Copied(artifacts, 0, mem.grants, next) == |artifacts|)
  {
    ok := CopyToEmpty(mem, toVerdicts, fromVerdicts, verdicts);
    if !ok {
      assert toArtifacts.Valid() && toArtifacts.elems == [];
      return;
    }
    ghost var copies := toVerdicts.elems;
    ok := CopyToEmpty(mem, toArtifacts, fromArtifacts, artifacts);
    assert toVerdicts.elems == copies && toVerdicts.Valid();
  }

  /** Both lists of a result. */
  method CopyLists(mem: Allocator, dup: Result, result: Result) returns (ok: bool)
    requires result.Valid() && dup.Valid() && dup.verdicts.elems == [] && dup.artifacts.elems == []
    requires {dup.verdicts, dup.artifacts} !! {result.verdicts, result.artifacts}
    modifies dup.verdicts, dup.artifacts, mem`requests, mem`nodes
    ensures dup.Valid()
    ensures forall i :: 0 <= i < |dup.verdicts.elems| ==> fresh(dup.verdicts.elems[i])
    ensures forall i :: 0 <= i < |dup.artifacts.elems| ==> fresh(dup.artifacts.elems[i])
    ensures mem.nodes == old(mem.nodes) + Nodes(dup.verdicts.elems) + Nodes(dup.artifacts.elems)
    ensures ok <==> Granted(mem.grants, old(mem.requests), DupRequests(result))
    ensures mem.requests == old(mem.requests) + DupAsked(result, mem.grants, old(mem.requests))
    ensures ok ==> Strings(dup.verdicts.elems) == Strings(result.verdicts.elems)
    ensures ok ==> Strings(dup.artifacts.elems) == Strings(result.artifacts.elems)
  {
    ghost var verdicts, artifacts := Strings(result.verdicts.elems), Strings(result.artifacts.elems);
    BothComplete(verdicts, artifacts, mem.grants, mem.requests);
    ok := CopyInTurn(mem, dup.verdicts, dup.artifacts, result.verdicts, result.artifacts, verdicts, artifacts);
  }

  /** The lists are copied, or what has been copied is freed again together with the result. */
  method FillDup(mem: Allocator, dup: Result, result: Result) returns (ok: bool)
    requires dup in mem.results && dup != result
    requires result.Valid() && dup.Valid() && dup.verdicts.elems == [] && dup.artifacts.elems == []
    requires {dup.verdicts, dup.artifacts} !! {result.verdicts, result.artifacts}
    modifies dup`status, dup.verdicts, dup.artifacts, mem`requests, mem`nodes, mem`results
    ensures ok <==> Granted(mem.grants, old(mem.requests), DupRequests(result))
    ensures mem.requests == old(mem.requests) + DupAsked(result, mem.grants, old(mem.requests))
    ensures !ok ==> mem.nodes == old(mem.nodes)
    ensures mem.results == if ok then old(mem.results) else old(mem.results) - {dup}
    ensures ok ==>
              && dup.Valid() && dup.status == result.status
              && (forall i :: 0 <= i < |dup.verdicts.elems| ==> fresh(dup.verdicts.elems[i]))
              && (forall i :: 0 <= i < |dup.artifacts.elems| ==> fresh(dup.artifacts.elems[i]))
              && Strings(dup.verdicts.elems) == Strings(result.verdicts.elems)
              && Strings(dup.artifacts.elems) == Strings(result.artifacts.elems)
              && mem.nodes == old(mem.nodes) + Nodes(dup.verdicts.elems) + Nodes(dup.artifacts.elems)
  {
    dup.status := result.status;
    ok := CopyLists(mem, dup, result);
    if !ok {
      dup.Free(mem);
    }
  }

  /** te_test_result_dup(). The code does not check the request for the result itself: `crashed` says
      that it goes on with a null pointer. The source is out of the frame: no outcome touches it. */
  method Dup(mem: Allocator, result: Result?) returns (crashed: bool, dup: Result?)
    requires result != null ==> result.Valid()
    modifies mem`requests, mem`nodes, mem`results
    ensures crashed <==> result != null && !mem.grants(old(mem.requests))
    ensures dup == null <==>
              crashed || result == null || !Granted(mem.grants, old(mem.requests) + 1, DupRequests(result))
    ensures mem.requests == old(mem.requests) +
              if result == null then 0
              else if crashed then 1
              else 1 + DupAsked(result, mem.grants, old(mem.requests) + 1)
    ensures dup == null ==> mem.nodes == old(mem.nodes) && mem.results == old(mem.results)
    ensures dup != null ==>
              && mem.results == old(mem.results) + {dup}
              && fresh(dup) && fresh(dup.verdicts) && fresh(dup.artifacts) && dup.Valid()
              && fresh(Nodes(dup.verdicts.elems)) && fresh(Nodes(dup.artifacts.elems))
              && dup.status == result.status
              && Strings(dup.verdicts.elems) == Strings(result.verdicts.elems)
              && Strings(dup.artifacts.elems) == Strings(result.artifacts.elems)
              && mem.nodes == old(mem.nodes) + Nodes(dup.verdicts.elems) + Nodes(dup.artifacts.elems)
  {
    if result == null {
      return false, null;
    }
    var granted := mem.Request();
    if !granted {
      return true, null;
    }
    crashed := false;
    dup := new Result();
    mem.results := mem.results + {dup};
    var ok := FillDup(mem, dup, result);
    if !ok {
      dup := null;
    }
  }

  /** Whether the lists of `dest` begin like those of `src`, with the same strings in order. */
  ghost predicate Follows(dest: Result, src: Result)
    reads dest.verdicts, dest.artifacts, src.verdicts, src.artifacts
  {
    && Matching(dest.verdicts.elems, Strings(src.verdicts.elems))
    && Matching(dest.artifacts.elems, Strings(src.artifacts.elems))
  }

  /** Each list has just as many copies as its own requests are met for: those for the artifacts come
      after those for the verdicts, all of which were met but perhaps the last one. */
  ghost predicate AsFarAsGranted(dest: Result, src: Result, grants: nat -> bool, from: nat, to: nat)
    reads dest.verdicts, dest.artifacts, src.verdicts, src.artifacts
  {
    var verdicts, artifacts := Strings(src.verdicts.elems), Strings(src.artifacts.elems);
    var next := from + Asked(verdicts, 0, grants, from);
    && |dest.verdicts.elems| == Copied(verdicts, 0, grants, from)
    && |dest.artifacts.elems| == Copied(artifacts, 0, grants, next)
    && to == next + Asked(artifacts, 0, grants, next)
  }

  /** The two calls of te_test_result_verdicts_cpy() in te_test_result_cpy(): each list is copied
      as far as its own requests are met. */
  method CopyEach(mem: Allocator, toVerdicts: Verdicts, toArtifacts: Verdicts, fromVerdicts: Verdicts,
                  fromArtifacts: Verdicts, ghost verdicts: seq<Option<string>>, ghost artifacts: seq<Option<string>>)
    requires toVerdicts != toArtifacts && {toVerdicts, toArtifacts} !! {fromVerdicts, fromArtifacts}
    requires toVerdicts.Valid() && toArtifacts.Valid() && toVerdicts.elems == [] && toArtifacts.elems == []
    requires fromVerdicts.Valid() && fromArtifacts.Valid()
    requires verdicts == Strings(fromVerdicts.elems) && artifacts == Strings(fromArtifacts.elems)
    modifies toVerdicts, toArtifacts, mem`requests, mem`nodes
    ensures toVerdicts.Valid() && toArtifacts.Valid()
    ensures forall i, j :: 0 <= i < |toVerdicts.elems| && 0 <= j < |toArtifacts.elems| ==>
              toVerdicts.elems[i] != toArtifacts.elems[j]
    ensures forall i :: 0 <= i < |toVerdicts.elems| ==> fresh(toVerdicts.elems[i])
    ensures forall i :: 0 <= i < |toArtifacts.elems| ==> fresh(toArtifacts.elems[i])
    ensures Matching(toVerdicts.elems, verdicts) && Matching(toArtifacts.elems, artifacts)
    ensures mem.nodes == old(mem.nodes) + Nodes(toVerdicts.elems) + Nodes(toArtifacts.elems)
    ensures var next := old(mem.requests) + Asked(verdicts, 0, mem.grants, old(mem.requests));
            && |toVerdicts.elems| == Copied(verdicts, 0, mem.grants, old(mem.requests))
            && |toArtifacts.elems| == Copied(artifacts, 0, mem.grants, next)
            && mem.requests == next + Asked(artifacts, 0, mem.grants, next)
  {
    var ok := CopyToEmpty(mem, toVerdicts, fromVerdicts, verdicts);
    ghost var copies := toVerdicts.elems;
    ok := CopyToEmpty(mem, toArtifacts, fromArtifacts, artifacts);
    assert toVerdicts.elems == copies && toVerdicts.Valid();
  }

  /** Both lists of a result. */
  method CopyBoth(mem: Allocator, dest: Result, src: Result)
    requires src.Valid() && dest.Valid() && dest.verdicts.elems == [] && dest.artifacts.elems == []
    requires {dest.verdicts, dest.artifacts} !! {src.verdicts, src.artifacts}
    modifies dest.verdicts, dest.artifacts, mem`requests, mem`nodes
    ensures dest.Valid() && Follows(dest, src)
    ensures forall i :: 0 <= i < |dest.verdicts.elems| ==> fresh(dest.verdicts.elems[i])
    ensures forall i :: 0 <= i < |dest.artifacts.elems| ==> fresh(dest.artifacts.elems[i])
    ensures mem.nodes == old(mem.nodes) + Nodes(dest.verdicts.elems) + Nodes(dest.artifacts.elems)
    ensures |dest.verdicts.elems| == |src.verdicts.elems| && |dest.artifacts.elems| == |src.artifacts.elems| <==>
            Granted(mem.grants, old(mem.requests), DupRequests(src))
    ensures AsFarAsGranted(dest, src, mem.grants, old(mem.requests), mem.requests)
  {
    ghost var verdicts, artifacts := Strings(src.verdicts.elems), Strings(src.artifacts.elems);
    CopyEach(mem, dest.verdicts, dest.artifacts, src.verdicts, src.artifacts, verdicts, artifacts);
    BothComplete(verdicts, artifacts, mem.grants, old(mem.requests));
  }

  lemma BothComplete(verdicts: seq<Option<string>>, artifacts: seq<Option<string>>, grants: nat -> bool, from: nat)
    ensures var next := from + Asked(verdicts, 0, grants, from);
            Copied(verdicts, 0, grants, from) == |verdicts| && Copied(artifacts, 0, grants, next) == |artifacts| <==>
            Granted(grants, from, AllRequests(verdicts, 0) + AllRequests(artifacts, 0))
  {
    var next := from + Asked(verdicts, 0, grants, from);
    AskedUntilRefused(verdicts, 0, grants, from);
    CopiedAll(verdicts, 0, grants, from);
    CopiedAll(artifacts, 0, grants, next);
    GrantedInParts(grants, from, AllRequests(verdicts, 0), AllRequests(artifacts, 0));
  }

  /** te_test_result_cpy(). It does not tell whether requests fail. What the destination had is
      forgotten, not freed. */
  method Cpy(mem: Allocator, dest: Result, src: Result)
    requires src.Valid() && dest.verdicts != dest.artifacts
    requires dest != src && {dest.verdicts, dest.artifacts} !! {src.verdicts, src.artifacts}
    modifies dest, dest.verdicts, dest.artifacts, mem`requests, mem`nodes
    ensures dest.Valid() && dest.status == src.status && Follows(dest, src)
    ensures forall i :: 0 <= i < |dest.verdicts.elems| ==> fresh(dest.verdicts.elems[i])
    ensures forall i :: 0 <= i < |dest.artifacts.elems| ==> fresh(dest.artifacts.elems[i])
    ensures mem.nodes == old(mem.nodes) + Nodes(dest.verdicts.elems) + Nodes(dest.artifacts.elems)
    ensures |dest.verdicts.elems| == |src.verdicts.elems| && |dest.artifacts.elems| == |src.artifacts.elems| <==>
            Granted(mem.grants, old(mem.requests), DupRequests(src))
    ensures AsFarAsGranted(dest, src, mem.grants, old(mem.requests), mem.requests)
  {
    dest.verdicts.Init();
    dest.artifacts.Init();
    dest.status := src.status;
    CopyBoth(mem, dest, src);
  }
}
