/** The ports of VLANs in agents/switch-ctl/conf.c, whose loops count in 8 bits. */
module VlanPorts {
  import opened Wrappers
  import opened Sequences
  import opened Text

  datatype Vlan = Vlan(id: nat, ports: seq<nat>)

  datatype Errno = ENOENT | EEXIST | EIO

  /** How the switch answers: whether its table can be read, and whether a change is made. */
  datatype Switch = Switch(answers: bool, obeys: bool)

  /** A number read into 32 bits and accepted up to `max`. */
  function Arg(s: string, max: nat): (r: Option<nat>)
    ensures r.Some? ==> r.value <= max
  {
    var (v, end) := Strtol(s);
    var word := Word(v);
    if end == 0 || end != |s| || word > max then None else Some(word)
  }

  /** A printed number of up to 32 bits is taken as it is up to `max`, and refused beyond that or with
      anything behind it. */
  lemma ArgReads(n: nat, rest: string, max: nat)
    requires n < WORD && (rest != [] ==> !IsDigit(rest[0]))
    ensures Arg(Decimal(n) + rest, max) == if rest == "" && n <= max then Some(n) else None
  {
    var s := Decimal(n) + rest;
    StrtolReadsAny(n, rest);
    WordOfWord(n);
    assert |s| == |Decimal(n)| <==> rest == "";
  }

  lemma WordOfWord(n: nat)
    requires n < WORD
    ensures Word(n) == n
  {
  }

  /** A longer number is taken for what its last 32 bits make, and so is a negative one. */
  lemma ArgWraps(n: nat, max: nat)
    requires n <= LONG_MAX
    ensures Arg(Decimal(n), max) == if n % WORD <= max then Some(n % WORD) else None
    ensures Arg(['-'] + Decimal(n), max) == if (0 - n) % WORD <= max then Some((0 - n) % WORD) else None
  {
    assert Decimal(n) + "" == Decimal(n);
    StrtolReadsAny(n, "");
    StrtolReadsSigned(n, '-');
  }

  /** The instance names of a VLAN: its tag, and another name for the default one. */
  predicate Names(vid: string, tag: nat) {
    vid == Decimal(tag) || (vid == "default" && tag == 1)
  }

  lemma TagIsNamed(vid: string, tag: nat)
    requires Names(vid, tag) && tag <= 0xFFFF
    ensures Tag(vid) == Some(tag)
  {
    assert Decimal(tag) + "" == Decimal(tag);
    ArgReads(tag, "", 0xFFFF);
    assert vid == "default" ==> vid[0] == 'd';
  }

  const VLAN_DEFAULT := 1

  /** The tag of a VLAN's instance name. */
  function Tag(vid: string): Option<nat> {
    if vid == "default" then Some(VLAN_DEFAULT) else Arg(vid, 0xFFFF)
  }

  /** The position of the first VLAN with the tag from `i` on, |table| if there is none. */
  function VlanIndex(table: seq<Vlan>, tag: nat, i: nat): (k: nat)
    requires i <= |table|
    ensures i <= k <= |table| && (k < |table| ==> table[k].id == tag)
    ensures forall j :: i <= j < k ==> table[j].id != tag
    decreases |table| - i
  {
    if i == |table| || table[i].id == tag then i else VlanIndex(table, tag, i + 1)
  }

  /** find_vlan(). */
  function Found(table: seq<Vlan>, vid: string, answers: bool): Result<nat, Errno> {
    if Tag(vid).None? then Err(ENOENT)
    else if !answers then Err(EIO)
    else
      var k := VlanIndex(table, Tag(vid).value, 0);
      if k < |table| then Ok(k) else Err(ENOENT)
  }

  /** The elements before `n` which are not `x`. */
  ghost function Others(s: seq<nat>, x: nat, n: nat): (r: seq<nat>)
    requires n <= |s|
    ensures |r| <= n
  {
    if n == 0 then [] else Others(s, x, n - 1) + if s[n - 1] == x then [] else [s[n - 1]]
  }

  // What the 8-bit counters allow

  /** The ++ of an 8-bit counter. */
  function Increment(i: nat): (n: nat)
    requires i < 256
    ensures n == if i < 255 then i + 1 else 0
  {
    (i + 1) % 256
  }

  /** The counter after `n` rounds of a loop over the ports which is left early at port `stop`, if
      one is given; none if the loop has ended before. */
  function Counter(ports: seq<nat>, stop: Option<nat>, n: nat): (i: Option<nat>)
    ensures i.Some? ==> i.value < 256
  {
    if n == 0 then Some(0)
    else
      match Counter(ports, stop, n - 1)
      case None => None
      case Some(i) => if i < |ports| && Some(ports[i]) != stop then Some(Increment(i)) else None
  }

  /** The loop has been left before round `n`. */
  predicate Over(ports: seq<nat>, stop: Option<nat>, n: nat) {
    Counter(ports, stop, n) == None
  }

  /** The loop comes to its end, or stops before the counter wraps around. */
  predicate LoopEnds(ports: seq<nat>, stop: Option<nat>) {
    |ports| <= 255 || (stop.Some? && stop.value in ports[..256])
  }

  /** The first position from `i` on where the loop is left, |s| if there is none. */
  function StopIndex(s: seq<nat>, stop: Option<nat>, i: nat): (k: nat)
    requires i <= |s|
    ensures i <= k <= |s| && (k < |s| ==> Some(s[k]) == stop) && forall j :: i <= j < k ==> Some(s[j]) != stop
    decreases |s| - i
  {
    if i == |s| || Some(s[i]) == stop then i else StopIndex(s, stop, i + 1)
  }

  lemma {:induction false} CounterCounts(ports: seq<nat>, stop: Option<nat>, n: nat)
    requires n <= StopIndex(ports, stop, 0) && n <= 255
    ensures Counter(ports, stop, n) == Some(n)
  {
    if n > 0 {
      CounterCounts(ports, stop, n - 1);
    }
  }

  /** A counter which never gets out of the array wraps around. */
  lemma {:induction false} CounterWraps(ports: seq<nat>, stop: Option<nat>, n: nat)
    requires !LoopEnds(ports, stop)
    ensures Counter(ports, stop, n) == Some(n % 256)
  {
    if n > 0 {
      CounterWraps(ports, stop, n - 1);
      var i := (n - 1) % 256;
      assert ports[i] == ports[..256][i];
      NextByte(n - 1);
    }
  }

  lemma NextByte(n: nat)
    ensures (n % 256 + 1) % 256 == (n + 1) % 256
  {
  }

  /** A loop ends exactly when there are at most 255 ports, or the port at which it is left is
      among the first 256: otherwise the counter never gets out of the array. */
  lemma EndsIffLoopEnds(ports: seq<nat>, stop: Option<nat>)
    ensures LoopEnds(ports, stop) <==> exists n: nat :: Over(ports, stop, n)
  {
    if LoopEnds(ports, stop) {
      var k := StopIndex(ports, stop, 0);
      if |ports| > 255 {
        var j :| 0 <= j < 256 && ports[..256][j] == stop.value;
        assert Some(ports[j]) == stop;
      }
      assert k <= 255;
      CounterCounts(ports, stop, k);
      assert Over(ports, stop, k + 1);
    } else {
      forall n: nat
        ensures !Over(ports, stop, n)
      {
        CounterWraps(ports, stop, n);
      }
    }
  }

  /** What becomes of a request; one whose loop does not end is never answered. */
  datatype Outcome = Done | Refused(error: Errno) | Endless

  datatype Op = Add(port: nat) | Del(port: nat)

  /** The ports after an operation which the switch does not refuse. */
  ghost function After(ports: seq<nat>, op: Op): seq<nat> {
    match op
    case Add(p) => if p in ports then ports else ports + [p]
    case Del(p) =>
      var others := Others(ports, p, |ports|);
      if |others| == |ports| then ports else others + ports[|others|..|ports| - 1]
  }

  class Agent {
    /** The VLAN table of the switch. */
    var table: seq<Vlan>

    constructor (table: seq<Vlan>)
      ensures this.table == table
    {
      this.table := table;
    }

    /** vlan_port_add(). */
    method PortAdd(vid: string, p: string, sw: Switch) returns (rc: Outcome)
      modifies this
      ensures match (Arg(p, 0xFF), Found(old(table), vid, sw.answers))
              case (None, _) => rc == Refused(ENOENT) && table == old(table)
              case (Some(_), Err(e)) => rc == Refused(e) && table == old(table)
              case (Some(port), Ok(k)) =>
                var vlan := old(table)[k];
                if !LoopEnds(vlan.ports, Some(port)) then rc == Endless && table == old(table)
                else if port in vlan.ports then rc == Refused(EEXIST) && table == old(table)
                else if !sw.obeys then rc == Refused(EIO) && table == old(table)
                else rc == Done && table == old(table)[k := vlan.(ports := After(vlan.ports, Add(port)))]
    {
      var arg := Arg(p, 0xFF);
      if arg.None? {
        return Refused(ENOENT);
      }
      var v := Found(table, vid, sw.answers);
      if v.Err? {
        return Refused(v.error);
      }
      var port, before := arg.value, table[v.value].ports;
      if !LoopEnds(before, arg) {
        return Endless;
      }
      var ports := new nat[|before| + 1];
      var i := 0;
      while i < |before|
        modifies ports
        invariant 0 <= i <= |before| && i <= 255
        invariant ports[..i] == before[..i] && port !in before[..i]
        decreases |before| - i
      {
        ports[i] := before[i];
        if ports[i] == port {
          return Refused(EEXIST);
        }
        assert before[..i + 1] == before[..i] + [before[i]];
        assert i + 1 < 256;
        i := Increment(i);
      }
      ports[i] := port;
      assert ports[..] == before + [port];
      if !sw.obeys {
        return Refused(EIO);
      }
      table := table[v.value := table[v.value].(ports := ports[..])];
      return Done;
    }

    /** vlan_port_del(): the remaining ports move up in the array which was read. */
    method PortDel(vid: string, p: string, sw: Switch) returns (rc: Outcome)
      modifies this
      ensures match (Arg(p, 0xFF), Found(old(table), vid, sw.answers))
              case (None, _) => rc == Refused(ENOENT) && table == old(table)
              case (Some(_), Err(e)) => rc == Refused(e) && table == old(table)
              case (Some(port), Ok(k)) =>
                var vlan := old(table)[k];
                if !LoopEnds(vlan.ports, None) then rc == Endless && table == old(table)
                else if |Others(vlan.ports, port, |vlan.ports|)| == |vlan.ports| then
                  rc == Refused(ENOENT) && table == old(table)
                else if !sw.obeys then rc == Refused(EIO) && table == old(table)
                else rc == Done && table == old(table)[k := vlan.(ports := After(vlan.ports, Del(port)))]
    {
      var arg := Arg(p, 0xFF);
      if arg.None? {
        return Refused(ENOENT);
      }
      var v := Found(table, vid, sw.answers);
      if v.Err? {
        return Refused(v.error);
      }
      var port, before := arg.value, table[v.value].ports;
      if !LoopEnds(before, None) {
        return Endless;
      }
      var found, ports := Compacted(before, port);
      if !found {
        return Refused(ENOENT);
      }
      if !sw.obeys {
        return Refused(EIO);
      }
      table := table[v.value := table[v.value].(ports := ports)];
      return Done;
    }

    /** Addition of a port by its number to the VLAN with a tag. */
    method AddNumbered(vid: string, tag: nat, port: nat, sw: Switch) returns (rc: Outcome)
      requires Names(vid, tag) && tag <= 0xFFFF && port <= 0xFF
      modifies this
      ensures !sw.answers ==> rc == Refused(EIO) && table == old(table)
      ensures sw.answers && !(exists k :: Tagged(old(table), k, tag)) ==> rc == Refused(ENOENT) && table == old(table)
      ensures sw.answers ==> forall k :: Tagged(old(table), k, tag) ==>
                var ports := old(table)[k].ports;
                if !LoopEnds(ports, Some(port)) then rc == Endless && table == old(table)
                else if port in ports then rc == Refused(EEXIST) && table == old(table)
                else if !sw.obeys then rc == Refused(EIO) && table == old(table)
                else rc == Done && table == old(table)[k := Vlan(tag, ports + [port])]
    {
      TagIsNamed(vid, tag);
      assert Decimal(port) + "" == Decimal(port);
      ArgReads(port, "", 0xFF);
      FoundByTag(table, vid, tag);
      rc := PortAdd(vid, Decimal(port), sw);
    }

    /** Deletion of a port by its number from the VLAN with a tag. */
    method DelNumbered(vid: string, tag: nat, port: nat, sw: Switch) returns (rc: Outcome)
      requires Names(vid, tag) && tag <= 0xFFFF && port <= 0xFF
      modifies this
      ensures !sw.answers ==> rc == Refused(EIO) && table == old(table)
      ensures sw.answers && !(exists k :: Tagged(old(table), k, tag)) ==> rc == Refused(ENOENT) && table == old(table)
      ensures sw.answers ==> forall k :: Tagged(old(table), k, tag) ==>
                var ports := old(table)[k].ports;
                if |ports| > 255 then rc == Endless && table == old(table)
                else if port !in ports then rc == Refused(ENOENT) && table == old(table)
                else if !sw.obeys then rc == Refused(EIO) && table == old(table)
                else rc == Done && table == old(table)[k := Vlan(tag, After(ports, Del(port)))]
    {
      TagIsNamed(vid, tag);
      assert Decimal(port) + "" == Decimal(port);
      ArgReads(port, "", 0xFF);
      FoundByTag(table, vid, tag);
      forall k | Tagged(table, k, tag)
        ensures |Others(table[k].ports, port, |table[k].ports|)| == |table[k].ports| <==> port !in table[k].ports
      {
        AllOthers(table[k].ports, port, |table[k].ports|);
      }
      rc := PortDel(vid, Decimal(port), sw);
    }
  }

  /** VLAN `k` is the first one with the tag. */
  predicate Tagged(table: seq<Vlan>, k: int, tag: nat) {
    0 <= k < |table| && table[k].id == tag && forall j :: 0 <= j < k ==> table[j].id != tag
  }

  lemma FoundByTag(table: seq<Vlan>, vid: string, tag: nat)
    requires Tag(vid) == Some(tag)
    ensures Found(table, vid, false) == Err(EIO)
    ensures forall k :: Tagged(table, k, tag) ==> Found(table, vid, true) == Ok(k)
    ensures !(exists k :: Tagged(table, k, tag)) ==> Found(table, vid, true) == Err(ENOENT)
  {
    var k := VlanIndex(table, tag, 0);
    if k < |table| {
      assert Tagged(table, k, tag);
    }
  }

  lemma {:induction false} AllOthers(s: seq<nat>, x: nat, n: nat)
    requires n <= |s|
    ensures |Others(s, x, n)| == n <==> x !in s[..n]
    ensures n == |s| ==> s[..n] == s
  {
    if n > 0 {
      AllOthers(s, x, n - 1);
      assert s[..n] == s[..n - 1] + [s[n - 1]];
    }
  }

  /** The array which find_vlan() has read, compacted by the loop of vlan_port_del(), up to the
      decremented number of ports. */
  method Compacted(before: seq<nat>, port: nat) returns (found: bool, after: seq<nat>)
    requires |before| <= 255
    ensures found <==> |Others(before, port, |before|)| < |before|
    ensures found ==> after == After(before, Del(port))
  {
    var num := |before|;
    var ports := new nat[num](j requires 0 <= j < num => before[j]);
    assert ports[..] == before;
    var k := MoveUp(ports, port);
    if num == k {
      return false, before;
    }
    num := num - 1;
    assert before[k..][..num - k] == before[k..num];
    return true, ports[..num];
  }

  lemma OthersNext(s: seq<nat>, x: nat, n: nat)
    requires n < |s|
    ensures Others(s, x, n + 1) == if s[n] == x then Others(s, x, n) else Others(s, x, n) + [s[n]]
  {
  }

  /** The loop of vlan_port_del(). Behind the remaining ports the array is as it was. */
  method MoveUp(ports: array<nat>, port: nat) returns (k: nat)
    requires ports.Length <= 255
    modifies ports
    ensures k == |Others(old(ports[..]), port, ports.Length)|
    ensures ports[..] == Others(old(ports[..]), port, ports.Length) + old(ports[..])[k..]
  {
    ghost var before, kept := ports[..], [];
    var i := 0;
    k := 0;
    while i < ports.Length
      invariant 0 <= k <= i <= ports.Length
      invariant kept == Others(before, port, i) && k == |kept|
      invariant forall j :: 0 <= j < k ==> ports[j] == kept[j]
      invariant forall j :: k <= j < ports.Length ==> ports[j] == before[j]
      decreases ports.Length - i
    {
      OthersNext(before, port, i);
      if ports[i] != port {
        kept := kept + [before[i]];
        ports[k] := ports[i];
        k := Increment(k);
      }
      i := Increment(i);
    }
    assert ports[..] == kept + before[k..];
  }

  // Runs of additions and deletions on one VLAN

  ghost function AfterAll(ports: seq<nat>, ops: seq<Op>, n: nat): seq<nat>
    requires n <= |ops|
  {
    if n == 0 then ports else After(AfterAll(ports, ops, n - 1), ops[n - 1])
  }

  /** The other elements keep their order, and of a distinct sequence at most one is left out. */
  lemma {:induction false} OthersOfDistinct(s: seq<nat>, x: nat, n: nat)
    requires n <= |s| && Distinct(s)
    ensures Distinct(Others(s, x, n)) && x !in Others(s, x, n)
    ensures forall y :: y in Others(s, x, n) <==> y in s[..n] && y != x
    ensures |Others(s, x, n)| == if x in s[..n] then n - 1 else n
    ensures x !in s[..n] ==> Others(s, x, n) == s[..n]
  {
    if n > 0 {
      OthersOfDistinct(s, x, n - 1);
      assert s[..n] == s[..n - 1] + [s[n - 1]];
      assert s[n - 1] !in s[..n - 1];
    }
  }

  lemma AddKeepsDistinct(ports: seq<nat>, port: nat)
    requires Distinct(ports)
    ensures var after := After(ports, Add(port));
            Distinct(after) && forall y :: y in after <==> y in ports || y == port
  {
    if port !in ports {
      var after := ports + [port];
      forall y | y in after
        ensures y in ports || y == port
      {
        var i :| 0 <= i < |after| && after[i] == y;
        assert i < |ports| ==> ports[i] == y;
      }
    }
  }

  lemma DelKeepsDistinct(ports: seq<nat>, port: nat)
    requires Distinct(ports)
    ensures var after := After(ports, Del(port));
            && Distinct(after) && after == Others(ports, port, |ports|)
            && forall y :: y in after <==> y in ports && y != port
  {
    assert ports[..|ports|] == ports;
    OthersOfDistinct(ports, port, |ports|);
    var others := Others(ports, port, |ports|);
    if port in ports {
      assert others + ports[|others|..|ports| - 1] == others;
    }
  }

  /** No operation gives a VLAN a port twice: an addition adds just its port, a deletion takes just
      its port away. */
  lemma StepKeepsDistinct(ports: seq<nat>, op: Op)
    requires Distinct(ports)
    ensures var after := After(ports, op);
            && Distinct(after)
            && (op.Add? ==> forall y :: y in after <==> y in ports || y == op.port)
            && (op.Del? ==> after == Others(ports, op.port, |ports|))
            && (op.Del? ==> forall y :: y in after <==> y in ports && y != op.port)
  {
    if op.Add? {
      AddKeepsDistinct(ports, op.port);
    } else {
      DelKeepsDistinct(ports, op.port);
    }
  }

  /** Deleting a port which has just been added restores the array. */
  lemma DelUndoesAdd(ports: seq<nat>, port: nat)
    requires Distinct(ports) && port !in ports
    ensures After(After(ports, Add(port)), Del(port)) == ports
  {
    var more := ports + [port];
    assert Distinct(more);
    assert more[..|ports|] == ports && more[..|more|] == more;
    OthersOfDistinct(more, port, |ports|);
    OthersOfDistinct(more, port, |more|);
    assert Others(more, port, |more|) == ports;
    assert ports + more[|ports|..|more| - 1] == ports;
  }

  ghost predicate Within(ports: seq<nat>, low: nat, high: nat) {
    forall i :: 0 <= i < |ports| ==> low <= ports[i] <= high
  }

  lemma {:induction false} RunKeeps(ports: seq<nat>, ops: seq<Op>, n: nat, low: nat, high: nat)
    requires n <= |ops| && Distinct(ports) && Within(ports, low, high)
    requires forall i :: 0 <= i < |ops| ==> low <= ops[i].port <= high
    ensures Distinct(AfterAll(ports, ops, n)) && Within(AfterAll(ports, ops, n), low, high)
  {
    if n > 0 {
      RunKeeps(ports, ops, n - 1, low, high);
      StepKeepsDistinct(AfterAll(ports, ops, n - 1), ops[n - 1]);
      var now := AfterAll(ports, ops, n);
      forall i | 0 <= i < |now|
        ensures low <= now[i] <= high
      {
        assert now[i] in now;
      }
    }
  }

  /** There are no more distinct numbers than there are numbers. */
  lemma {:induction false} Pigeonhole(s: seq<nat>, low: nat, high: nat)
    requires Distinct(s) && Within(s, low, high) && low <= high + 1
    ensures |s| <= high + 1 - low
    ensures |s| == high + 1 - low ==> forall y :: low <= y <= high ==> y in s
    decreases high + 1 - low
  {
    if low == high + 1 {
      if s != [] {
        RangeOfElement(s, low, high);
        assert false;
      }
    } else {
      var rest := Others(s, high, |s|);
      assert s[..|s|] == s;
      OthersOfDistinct(s, high, |s|);
      if high == 0 {
        assert forall i :: 0 <= i < |s| ==> s[i] == 0;
      } else {
        forall i | 0 <= i < |rest|
          ensures low <= rest[i] <= high - 1
        {
          assert rest[i] in rest;
        }
        Pigeonhole(rest, low, high - 1);
      }
    }
  }

  lemma RangeOfElement(s: seq<nat>, low: nat, high: nat)
    requires s != [] && Within(s, low, high)
    ensures low <= high
  {
    assert low <= s[0] <= high;
  }

  /** In every run over ports from 1 to 255 all loops come to an end. */
  lemma RunsWithoutPortZeroEnd(ports: seq<nat>, ops: seq<Op>, n: nat)
    requires n <= |ops| && Distinct(ports) && Within(ports, 1, 255)
    requires forall i :: 0 <= i < |ops| ==> 1 <= ops[i].port <= 255
    ensures |AfterAll(ports, ops, n)| <= 255 && LoopEnds(AfterAll(ports, ops, n), None)
  {
    RunKeeps(ports, ops, n, 1, 255);
    Pigeonhole(AfterAll(ports, ops, n), 1, 255);
  }

  /** The code takes port 0 as well. Then a deletion never ends exactly when the VLAN has all the
      ports from 0 to 255, while an addition still ends, as it finds its port. */
  lemma RunsWithPortZero(ports: seq<nat>, ops: seq<Op>, n: nat, port: nat)
    requires n <= |ops| && Distinct(ports) && Within(ports, 0, 255) && port <= 255
    requires forall i :: 0 <= i < |ops| ==> ops[i].port <= 255
    ensures var now := AfterAll(ports, ops, n);
            && LoopEnds(now, Some(port))
            && (!LoopEnds(now, None) <==> forall y :: 0 <= y <= 255 ==> y in now)
  {
    RunKeeps(ports, ops, n, 0, 255);
    var now := AfterAll(ports, ops, n);
    Pigeonhole(now, 0, 255);
    if |now| == 256 {
      assert now[..256] == now;
    }
    if forall y :: 0 <= y <= 255 ==> y in now {
      Covering(now, 256);
    }
  }

  /** Distinct numbers which include all below `n` are at least `n`. */
  lemma {:induction false} Covering(s: seq<nat>, n: nat)
    requires Distinct(s) && forall y :: 0 <= y < n ==> y in s
    ensures |s| >= n
    decreases n
  {
    if n > 0 {
      assert s[..|s|] == s;
      OthersOfDistinct(s, n - 1, |s|);
      Covering(Others(s, n - 1, |s|), n - 1);
    }
  }

  /** Such a VLAN is reached by adding all the ports. */
  lemma {:induction false} AllPortsCanBeAdded(ops: seq<Op>, n: nat)
    requires n <= |ops| && forall i :: 0 <= i < |ops| ==> ops[i] == Add(i)
    ensures var now := AfterAll([], ops, n); |now| == n && forall i :: 0 <= i < n ==> now[i] == i
  {
    if n > 0 {
      AllPortsCanBeAdded(ops, n - 1);
    }
  }
}
