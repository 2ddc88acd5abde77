/** Spanning tree ports in agents/switch-ctl/conf.c: the cache of the switch's table, which is
    refreshed once a request group, and the one entry which is staged until it is complete. */
module StagedPort {
  import opened Wrappers
  import opened Text

  datatype Port = Port(port: nat, prio: nat, cost: nat)

  datatype Errno = EINVAL | ENOENT | EEXIST | EAGAIN | EIO

  // The flags of the staged entry
  const PNUM_SET: bv32 := 0x01
  const PRIO_SET: bv32 := 0x02
  const PATH_COST_SET: bv32 := 0x04

  /** What the code does to the staged entry; `Created` is a call to the switch, which may refuse. */
  datatype Event = Added(port: nat) | PrioSet(prio: nat) | CostSet(cost: nat)
                 | Dropped | Created(entry: Port, done: bool)

  /** What has been said about the staged entry since it was added. */
  datatype Stage = Idle | Staged(port: nat, prio: Option<nat>, cost: Option<nat>)

  /** What the first `n` events leave staged. */
  function StageAfter(log: seq<Event>, n: nat): Stage
    requires n <= |log|
  {
    if n == 0 then Idle
    else
      var s := StageAfter(log, n - 1);
      match log[n - 1]
      case Added(p) => Staged(p, None, None)
      case PrioSet(v) => if s.Staged? then s.(prio := Some(v)) else s
      case CostSet(v) => if s.Staged? then s.(cost := Some(v)) else s
      case Dropped => Idle
      case Created(_, done) => if done then Idle else s
  }

  /** The switch is only told to create what is staged completely. */
  predicate CreatesStaged(log: seq<Event>) {
    forall k :: 0 <= k < |log| && log[k].Created? ==>
      var e := log[k].entry;
      StageAfter(log, k) == Staged(e.port, Some(e.prio), Some(e.cost))
  }

  /** Event `at` sets up the entry which is staged after `k` events. */
  predicate IsAddFor(log: seq<Event>, k: nat, at: nat)
    requires k <= |log|
  {
    at < k && log[at].Added? &&
    forall m :: at < m < k ==> log[m].PrioSet? || log[m].CostSet? || (log[m].Created? && !log[m].done)
  }

  /** Event `at` gives the staged entry its final priority. */
  predicate IsLastPrio(log: seq<Event>, k: nat, at: nat)
    requires k <= |log|
  {
    at < k && log[at].PrioSet? && forall m :: at < m < k ==> !log[m].PrioSet?
  }

  predicate IsLastCost(log: seq<Event>, k: nat, at: nat)
    requires k <= |log|
  {
    at < k && log[at].CostSet? && forall m :: at < m < k ==> !log[m].CostSet?
  }

  /** What is staged goes back to one addition and to the last writes after it. */
  lemma {:induction false} StagedSinceAdd(log: seq<Event>, k: nat) returns (a: nat, p: nat, c: nat)
    requires k <= |log| && StageAfter(log, k).Staged?
    ensures var s := StageAfter(log, k);
            && IsAddFor(log, k, a) && log[a].port == s.port
            && (s.prio.Some? ==> a < p && IsLastPrio(log, k, p) && log[p].prio == s.prio.value)
            && (s.cost.Some? ==> a < c && IsLastCost(log, k, c) && log[c].cost == s.cost.value)
            && (s.prio.None? ==> forall m :: a < m < k ==> !log[m].PrioSet?)
            && (s.cost.None? ==> forall m :: a < m < k ==> !log[m].CostSet?)
  {
    a, p, c := k - 1, k - 1, k - 1;
    match log[k - 1]
    case Added(_) =>
    case PrioSet(_) =>
      a, p, c := StagedSinceAdd(log, k - 1);
      p := k - 1;
    case CostSet(_) =>
      a, p, c := StagedSinceAdd(log, k - 1);
      c := k - 1;
    case Dropped => assert false;
    case Created(_, _) =>
      a, p, c := StagedSinceAdd(log, k - 1);
  }

  /** Whatever the switch is told to create was added, and its priority and path cost are the last
      ones written since: nothing of an entry which was staged earlier gets to the switch. */
  lemma CreatedIsWrittenSinceAdd(log: seq<Event>, k: nat) returns (a: nat, p: nat, c: nat)
    requires CreatesStaged(log) && k < |log| && log[k].Created?
    ensures var e := log[k].entry;
            && IsAddFor(log, k, a) && log[a] == Added(e.port)
            && a < p && IsLastPrio(log, k, p) && log[p] == PrioSet(e.prio)
            && a < c && IsLastCost(log, k, c) && log[c] == CostSet(e.cost)
  {
    a, p, c := StagedSinceAdd(log, k);
  }

  // The staged entry and the cache

  datatype Ref = Cached(i: nat) | Local

  /** How the switch answers: whether its table can be read, and whether a change is made. */
  datatype Switch = Switch(answers: bool, obeys: bool)

  /** The port number of an instance name. */
  function PortId(id: string): Option<nat> {
    var (pid, end) := Strtol(id);
    if id == "" || end != |id| || pid < 0 || pid > 50 then None else Some(pid)
  }

  /** The first position of the port, |table| if there is none. */
  function PortIndex(table: seq<Port>, port: nat, i: nat): (k: nat)
    requires i <= |table|
    ensures i <= k <= |table| && (k < |table| ==> table[k].port == port)
    ensures forall j :: i <= j < k ==> table[j].port != port
    decreases |table| - i
  {
    if i == |table| || table[i].port == port then i else PortIndex(table, port, i + 1)
  }

  /** Where a port is: in the table, or else staged. */
  function Lookup(table: seq<Port>, stage: Stage, port: nat): Result<Ref, Errno> {
    var k := PortIndex(table, port, 0);
    if k < |table| then Ok(Cached(k))
    else if stage.Staged? && stage.port == port then Ok(Local)
    else Err(ENOENT)
  }

  /** Row `k` is the first one for the port. */
  predicate FirstOf(table: seq<Port>, k: int, port: nat) {
    0 <= k < |table| && table[k].port == port && forall j :: 0 <= j < k ==> table[j].port != port
  }

  /** The switch's table with `entry` in the place of the entry for its port. */
  function Updated(device: seq<Port>, entry: Port): (r: seq<Port>)
    ensures |r| == |device|
    ensures forall k :: 0 <= k < |r| ==> r[k] == if FirstOf(device, k, entry.port) then entry else device[k]
  {
    var k := PortIndex(device, entry.port, 0);
    if k < |device| then device[k := entry] else device
  }

  function Removed(device: seq<Port>, port: nat): (r: seq<Port>)
    ensures forall k :: FirstOf(device, k, port) ==>
              |r| == |device| - 1 && forall j :: 0 <= j < |r| ==> r[j] == device[if j < k then j else j + 1]
    ensures (forall k :: 0 <= k < |device| ==> device[k].port != port) ==> r == device
  {
    var k := PortIndex(device, port, 0);
    if k < |device| then device[..k] + device[k + 1..] else device
  }

  /** The entry and its flags say what is staged; fields which are not flagged say nothing. */
  predicate Represents(local: Port, flags: bv32, stage: Stage) {
    match stage
    case Idle => flags == 0
    case Staged(port, prio, cost) =>
      && flags == PNUM_SET | (if prio.Some? then PRIO_SET else 0) | (if cost.Some? then PATH_COST_SET else 0)
      && local.port == port && (prio.Some? ==> local.prio == prio.value) && (cost.Some? ==> local.cost == cost.value)
  }

  /** Flags of the other fields are only set along with that of the port number. */
  lemma FlagsNeedPort(local: Port, flags: bv32, stage: Stage)
    requires Represents(local, flags, stage)
    ensures flags != 0 <==> stage.Staged?
    ensures flags != 0 ==> flags & PNUM_SET != 0
    ensures flags & PRIO_SET != 0 <==> stage.Staged? && stage.prio.Some?
    ensures flags & PATH_COST_SET != 0 <==> stage.Staged? && stage.cost.Some?
  {
  }

  const NO_GROUP := 0xFFFF_FFFF

  /** The cached table and its group once it has been refreshed for a group. */
  function Refreshed(table: seq<Port>, prevGid: int, device: seq<Port>, gid: int, answers: bool): (seq<Port>, int) {
    if gid == prevGid then (table, prevGid) else if answers then (device, gid) else ([], prevGid)
  }

  /** The requests of one group see one table, unless it could not be read at first and then could. */
  lemma GroupSeesOneTable(table: seq<Port>, prevGid: int, before: seq<Port>, now: seq<Port>, gid: int, a: bool, b: bool)
    ensures var first := Refreshed(table, prevGid, before, gid, a);
            Refreshed(first.0, first.1, now, gid, b).0 == first.0 <==> gid == prevGid || a || !b || now == []
  {
  }

  /** A number read from the value of a request; an empty value is read as 0. */
  function ValueOf(value: string): Option<nat> {
    var (v, end) := Strtol(value);
    if v < 0 || end != |value| then None else Some(v)
  }

  /** The cache after a lookup: an ill-formed name is refused before it is refreshed. */
  function Consulted(table: seq<Port>, prevGid: int, device: seq<Port>, gid: int, id: string, answers: bool)
    : (seq<Port>, int) {
    if PortId(id).None? then (table, prevGid) else Refreshed(table, prevGid, device, gid, answers)
  }

  /** What a lookup in the consulted cache finds. */
  function Target(consulted: seq<Port>, stage: Stage, id: string): Result<Ref, Errno> {
    if PortId(id).None? then Err(EINVAL) else Lookup(consulted, stage, PortId(id).value)
  }

  /** The ports which are to be listed. */
  function Ports(table: seq<Port>, stage: Stage): (r: seq<nat>)
    ensures |r| == |table| + if stage.Staged? then 1 else 0
    ensures forall i :: 0 <= i < |table| ==> r[i] == table[i].port
    ensures stage.Staged? ==> r[|table|] == stage.port
  {
    seq(|table|, i requires 0 <= i < |table| => table[i].port) + if stage.Staged? then [stage.port] else []
  }

  function PortNames(table: seq<Port>, stage: Stage): (r: seq<string>)
    ensures |r| == |Ports(table, stage)| && AreWords(r)
    ensures forall i :: 0 <= i < |r| ==> r[i] == Decimal(Ports(table, stage)[i])
  {
    var ports := Ports(table, stage);
    seq(|ports|, i requires 0 <= i < |ports| => Decimal(ports[i]))
  }

  /** The size of the buffer for a list: a port with two digits and a space each. */
  function ListSize(n: nat): nat {
    (n + 1) * 3 + 1
  }

  /** The printing of stp_port_list(), which goes on behind what has been cut off already. */
  method Print(names: seq<string>, len: nat) returns (list: string)
    requires len > 0
    ensures list == Printed(Listing(names, |names|), len)
  {
    list := "";
    for i := 0 to |names|
      invariant list == Printed(Listing(names, i), len)
    {
      PrintedItem(names, i, len);
      list := list + Printed(names[i] + " ", len - |list|);
    }
  }

  class Agent {
    /** The table of the switch. */
    var device: seq<Port>
    /** The cached table and the group it was read for. */
    var table: seq<Port>
    var prevGid: int
    var local: Port
    var flags: bv32
    ghost var log: seq<Event>

    /** The fields of the entry are not initialized. */
    constructor (device: seq<Port>, garbage: Port)
      ensures Valid() && this.device == device && local == garbage && Stage() == Idle
              && table == [] && prevGid == NO_GROUP
    {
      this.device := device;
      table, prevGid := [], NO_GROUP;
      local, flags := garbage, 0;
      log := [];
    }

    ghost function Stage(): Stage
      reads this
    {
      StageAfter(log, |log|)
    }

    ghost predicate Valid()
      reads this
    {
      CreatesStaged(log) && Represents(local, flags, Stage())
    }

    ghost method Record(e: Event)
      requires CreatesStaged(log)
      requires e.Created? ==> Stage() == Staged(e.entry.port, Some(e.entry.prio), Some(e.entry.cost))
      modifies this`log
      ensures log == old(log) + [e] && CreatesStaged(log)
      ensures Stage() == match e
                         case Added(p) => Staged(p, None, None)
                         case PrioSet(v) =>
                           if old(Stage()).Staged? then old(Stage()).(prio := Some(v)) else old(Stage())
                         case CostSet(v) =>
                           if old(Stage()).Staged? then old(Stage()).(cost := Some(v)) else old(Stage())
                         case Dropped => Idle
                         case Created(_, done) => if done then Idle else old(Stage())
    {
      PrefixStage(log, e, |log|);
      forall k | 0 <= k < |log| && log[k].Created?
        ensures StageAfter(log + [e], k) == StageAfter(log, k)
      {
        PrefixStage(log, e, k);
      }
      log := log + [e];
    }

    /** stp_cache_update(). */
    method CacheUpdate(gid: int, sw: Switch) returns (rc: Option<Errno>)
      modifies `table, `prevGid
      ensures (table, prevGid) == Refreshed(old(table), old(prevGid), device, gid, sw.answers)
      ensures rc == if gid == old(prevGid) || sw.answers then None else Some(EIO)
    {
      rc := None;
      if gid != prevGid {
        table := [];
        if !sw.answers {
          return Some(EIO);
        }
        table := device;
        prevGid := gid;
      }
    }

    /** stp_port_entry_find(). A table which cannot be read counts as an empty one. */
    method Find(gid: int, id: string, sw: Switch) returns (r: Result<Ref, Errno>)
      requires Valid()
      modifies `table, `prevGid
      ensures (table, prevGid) == Consulted(old(table), old(prevGid), device, gid, id, sw.answers)
      ensures r == Target(table, Stage(), id)
    {
      var (tmp, end) := Strtol(id);
      if id == "" || end != |id| || tmp < 0 || tmp > 50 {
        return Err(EINVAL);
      }
      var pid: nat := tmp;
      var rc := CacheUpdate(gid, sw);
      for i := 0 to |table|
        invariant PortIndex(table, pid, 0) == PortIndex(table, pid, i)
      {
        if table[i].port == pid {
          return Ok(Cached(i));
        }
      }
      if flags & PNUM_SET != 0 && local.port == pid {
        return Ok(Local);
      }
      return Err(ENOENT);
    }

    /** stp_set_port_prio(). */
    method SetPrio(gid: int, value: string, id: string, sw: Switch) returns (rc: Option<Errno>)
      requires Valid()
      modifies `table, `prevGid, `local, `flags, `log
      ensures Valid() && prevGid == Consulted(old(table), old(prevGid), device, gid, id, sw.answers).1
      ensures var t := Consulted(old(table), old(prevGid), device, gid, id, sw.answers).0;
              match (Target(t, old(Stage()), id), ValueOf(value))
              case (Err(e), _) => rc == Some(e) && table == t && log == old(log)
              case (Ok(_), None) => rc == Some(EINVAL) && table == t && log == old(log)
              case (Ok(Cached(i)), Some(v)) => rc == None && table == t[i := t[i].(prio := v)] && log == old(log)
              case (Ok(Local), Some(v)) =>
                rc == None && table == t && log == old(log) + [PrioSet(v)] && Stage() == old(Stage()).(prio := Some(v))
    {
      var r := Find(gid, id, sw);
      if r.Err? {
        return Some(r.error);
      }
      var (v, end) := Strtol(value);
      if v < 0 || end != |value| {
        return Some(EINVAL);
      }
      match r.value {
      case Cached(i) => table := table[i := table[i].(prio := v)];
      case Local =>
        local := local.(prio := v);
        flags := flags | PRIO_SET;
        Record(PrioSet(v));
      }
      return None;
    }

    /** stp_set_port_path_cost(). */
    method SetPathCost(gid: int, value: string, id: string, sw: Switch) returns (rc: Option<Errno>)
      requires Valid()
      modifies `table, `prevGid, `local, `flags, `log
      ensures Valid() && prevGid == Consulted(old(table), old(prevGid), device, gid, id, sw.answers).1
      ensures var t := Consulted(old(table), old(prevGid), device, gid, id, sw.answers).0;
              match (Target(t, old(Stage()), id), ValueOf(value))
              case (Err(e), _) => rc == Some(e) && table == t && log == old(log)
              case (Ok(_), None) => rc == Some(EINVAL) && table == t && log == old(log)
              case (Ok(Cached(i)), Some(v)) => rc == None && table == t[i := t[i].(cost := v)] && log == old(log)
              case (Ok(Local), Some(v)) =>
                rc == None && table == t && log == old(log) + [CostSet(v)] && Stage() == old(Stage()).(cost := Some(v))
    {
      var r := Find(gid, id, sw);
      if r.Err? {
        return Some(r.error);
      }
      var (v, end) := Strtol(value);
      if v < 0 || end != |value| {
        return Some(EINVAL);
      }
      match r.value {
      case Cached(i) => table := table[i := table[i].(cost := v)];
      case Local =>
        local := local.(cost := v);
        flags := flags | PATH_COST_SET;
        Record(CostSet(v));
      }
      return None;
    }

    /** stp_add_port(): at most one entry is staged. */
    method Add(gid: int, id: string, sw: Switch) returns (rc: Option<Errno>)
      requires Valid()
      modifies `table, `prevGid, `local, `flags, `log
      ensures Valid() && (table, prevGid) == Consulted(old(table), old(prevGid), device, gid, id, sw.answers)
      ensures match Target(table, old(Stage()), id)
              case Ok(_) => rc == Some(EEXIST) && log == old(log)
              case Err(EINVAL) => rc == Some(EINVAL) && log == old(log)
              case Err(_) =>
                if old(Stage()).Staged? then rc == Some(EAGAIN) && log == old(log)
                else rc == None && log == old(log) + [Added(PortId(id).value)]
                     && Stage() == Staged(PortId(id).value, None, None)
    {
      var r := Find(gid, id, sw);
      if r.Ok? {
        return Some(EEXIST);
      }
      if r.error != ENOENT {
        return Some(r.error);
      }
      if flags != 0 {
        return Some(EAGAIN);
      }
      var (pid, _) := Strtol(id);
      local := local.(port := pid);
      flags := flags | PNUM_SET;
      Record(Added(pid));
      return None;
    }

    /** stp_del_port(). */
    method Del(gid: int, id: string, sw: Switch) returns (rc: Option<Errno>)
      requires Valid()
      modifies this
      ensures Valid() && (table, prevGid) == Consulted(old(table), old(prevGid), old(device), gid, id, sw.answers)
      ensures match Target(table, old(Stage()), id)
              case Err(e) => rc == Some(e) && device == old(device) && log == old(log)
              case Ok(Cached(i)) =>
                && log == old(log)
                && (if sw.obeys then rc == None && device == Removed(old(device), table[i].port)
                    else rc == Some(EINVAL) && device == old(device))
                && (sw.obeys ==> forall k :: FirstOf(old(device), k, table[i].port) ==>
                      device == old(device)[..k] + old(device)[k + 1..])
              case Ok(Local) => rc == None && device == old(device) && log == old(log) + [Dropped] && Stage() == Idle
    {
      var r := Find(gid, id, sw);
      if r.Err? {
        return Some(r.error);
      }
      match r.value {
      case Cached(i) =>
        if !sw.obeys {
          return Some(EINVAL);
        }
        device := Removed(device, table[i].port);
      case Local =>
        flags := 0;
        Record(Dropped);
      }
      return None;
    }

    /** stp_port_commit(). */
    method Commit(gid: int, id: string, sw: Switch) returns (rc: Option<Errno>)
      requires Valid()
      modifies this
      ensures Valid() && (table, prevGid) == Consulted(old(table), old(prevGid), old(device), gid, id, sw.answers)
      ensures match Target(table, old(Stage()), id)
              case Err(e) => rc == Some(e) && device == old(device) && log == old(log)
              case Ok(Cached(i)) =>
                && log == old(log)
                && (if sw.obeys then rc == None && |device| == |old(device)|
                    else rc == Some(EIO) && device == old(device))
                && (sw.obeys ==> forall k :: 0 <= k < |device| ==>
                      device[k] == if FirstOf(old(device), k, table[i].port) then table[i] else old(device)[k])
              case Ok(Local) =>
                match old(Stage())
                case Staged(port, Some(prio), Some(cost)) =>
                  && log == old(log) + [Created(Port(port, prio, cost), sw.obeys)]
                  && (if sw.obeys then rc == None && device == old(device) + [Port(port, prio, cost)] && Stage() == Idle
                      else rc == Some(EIO) && device == old(device) && Stage() == old(Stage()))
                case _ => rc == None && device == old(device) && log == old(log)
    {
      var r := Find(gid, id, sw);
      if r.Err? {
        return Some(r.error);
      }
      match r.value {
      case Cached(i) =>
        if !sw.obeys {
          return Some(EIO);
        }
        device := Updated(device, table[i]);
      case Local =>
        if flags == PNUM_SET | PRIO_SET | PATH_COST_SET {
          Record(Created(local, sw.obeys));
          if !sw.obeys {
            return Some(EIO);
          }
          device := device + [local];
          flags := 0;
        }
      }
      return None;
    }

    /** stp_port_list(): the cached ports and the staged one, cut off at the end of the buffer. */
    method List(gid: int, sw: Switch) returns (list: string)
      requires Valid()
      modifies `table, `prevGid
      ensures (table, prevGid) == Refreshed(old(table), old(prevGid), device, gid, sw.answers)
      ensures list == Printed(Listing(PortNames(table, Stage()), |PortNames(table, Stage())|), ListSize(|table|))
    {
      var rc := CacheUpdate(gid, sw);
      var stage := if flags & PNUM_SET != 0 then Staged(local.port, None, None) else Idle;
      assert Ports(table, stage) == Ports(table, Stage());
      list := Print(PortNames(table, stage), ListSize(|table|));
    }

    /** A priority which is set for a known port and committed is what the switch has for that port,
        with the path cost which was read from it; nothing else changes. */
    method SetPrioAndCommit(gid: int, port: nat, prio: nat, first: Switch, second: Switch) returns (rc: Option<Errno>)
      requires Valid() && port <= 50 && prio <= LONG_MAX
      modifies this
      ensures Valid()
      ensures var t := Refreshed(old(table), old(prevGid), old(device), gid, first.answers).0;
              forall i :: FirstOf(t, i, port) ==>
                && rc == (if second.obeys then None else Some(EIO)) && log == old(log) && |device| == |old(device)|
                && (!second.obeys ==> device == old(device))
                && forall k :: second.obeys && 0 <= k < |device| ==>
                     device[k] == if FirstOf(old(device), k, port) then Port(port, prio, t[i].cost) else old(device)[k]
    {
      NumbersAreRead(port, prio);
      ghost var t := Refreshed(table, prevGid, device, gid, first.answers).0;
      rc := SetPrio(gid, Decimal(prio), Decimal(port), first);
      if i :| FirstOf(t, i, port) {
        FirstIsFound(t, old(Stage()), i, port);
        FirstIsFound(table, old(Stage()), i, port);
      }
      var committed := Commit(gid, Decimal(port), second);
      if rc == None {
        rc := committed;
      }
    }

    /** The same for a path cost. */
    method SetPathCostAndCommit(gid: int, port: nat, cost: nat, first: Switch, second: Switch)
      returns (rc: Option<Errno>)
      requires Valid() && port <= 50 && cost <= LONG_MAX
      modifies this
      ensures Valid()
      ensures var t := Refreshed(old(table), old(prevGid), old(device), gid, first.answers).0;
              forall i :: FirstOf(t, i, port) ==>
                && rc == (if second.obeys then None else Some(EIO)) && log == old(log) && |device| == |old(device)|
                && (!second.obeys ==> device == old(device))
                && forall k :: second.obeys && 0 <= k < |device| ==>
                     device[k] == if FirstOf(old(device), k, port) then Port(port, t[i].prio, cost) else old(device)[k]
    {
      NumbersAreRead(port, cost);
      ghost var t := Refreshed(table, prevGid, device, gid, first.answers).0;
      rc := SetPathCost(gid, Decimal(cost), Decimal(port), first);
      if i :| FirstOf(t, i, port) {
        FirstIsFound(t, old(Stage()), i, port);
        FirstIsFound(table, old(Stage()), i, port);
      }
      var committed := Commit(gid, Decimal(port), second);
      if rc == None {
        rc := committed;
      }
    }

    /** A listing and a later lookup in one request group see the same table, unless it could be read
        for the lookup only; if its cuts are harmless, what is listed is what is found. */
    method ListThenFind(gid: int, port: nat, first: Switch, second: Switch)
      returns (list: string, r: Result<Ref, Errno>)
      requires Valid() && port <= 50
      modifies `table, `prevGid
      ensures gid == old(prevGid) || first.answers || !second.answers || device == [] ==>
                && Words(list) == ListItems(table, Stage()) && r == Target(table, Stage(), Decimal(port))
                && (CutHarmlessly(table, Stage()) ==> (Decimal(port) in Words(list) <==> r.Ok?))
    {
      GroupSeesOneTable(table, prevGid, device, device, gid, first.answers, second.answers);
      list := List(gid, first);
      r := Find(gid, Decimal(port), second);
      PortIdOfDecimal(port);
      ListAgreesWithFind(table, Stage());
      assert CutHarmlessly(table, Stage()) ==> !Betrays(table, Stage(), port);
    }

    /** stp_get_port_prio() and stp_get_port_path_cost(): a field which has not been written since
        the entry was added is not shown. */
    method Get(gid: int, id: string, prio: bool, sw: Switch) returns (r: Result<string, Errno>)
      requires Valid()
      modifies `table, `prevGid
      ensures (table, prevGid) == Consulted(old(table), old(prevGid), device, gid, id, sw.answers)
      ensures match Target(table, Stage(), id)
              case Err(e) => r == Err(e)
              case Ok(Cached(i)) => r == Ok(Decimal(if prio then table[i].prio else table[i].cost))
              case Ok(Local) =>
                var v := if prio then Stage().prio else Stage().cost;
                r == Ok(if v.Some? then Decimal(v.value) else "")
    {
      var f := Find(gid, id, sw);
      if f.Err? {
        return Err(f.error);
      }
      match f.value
      case Cached(i) => return Ok(Decimal(if prio then table[i].prio else table[i].cost));
      case Local =>
        if flags & (if prio then PRIO_SET else PATH_COST_SET) == 0 {
          return Ok("");
        }
        return Ok(Decimal(if prio then local.prio else local.cost));
    }
  }

  lemma FirstIsFound(table: seq<Port>, stage: Stage, i: int, port: nat)
    requires FirstOf(table, i, port) && PortId(Decimal(port)) == Some(port)
    ensures Target(table, stage, Decimal(port)) == Ok(Cached(i))
  {
  }

  lemma NumbersAreRead(port: nat, value: nat)
    requires port <= 50 && value <= LONG_MAX
    ensures PortId(Decimal(port)) == Some(port) && ValueOf(Decimal(value)) == Some(value)
  {
    assert Decimal(port) + "" == Decimal(port) && Decimal(value) + "" == Decimal(value);
    PortIdReads(port, "");
    ValueOfReads(value, "");
  }

  /** A printed number is taken as it is up to 50, and refused beyond that or with anything behind it. */
  lemma PortIdReads(n: nat, rest: string)
    requires rest != [] ==> !IsDigit(rest[0])
    ensures PortId(Decimal(n) + rest) == if rest == "" && n <= 50 then Some(n) else None
    ensures PortId("") == None && (n > 0 ==> PortId("-" + Decimal(n)) == None)
  {
    StrtolReadsAny(n, rest);
    StrtolReadsSigned(n, '-');
    assert ['-'] + Decimal(n) == "-" + Decimal(n);
  }

  /** A printed number is taken as it is up to the greatest one of a `long`; negative ones and those
      with anything behind them are refused. */
  lemma ValueOfReads(n: nat, rest: string)
    requires rest != [] ==> !IsDigit(rest[0])
    ensures ValueOf(Decimal(n) + rest) == if rest != "" then None else if n <= LONG_MAX then Some(n) else Some(LONG_MAX)
    ensures n > 0 ==> ValueOf("-" + Decimal(n)) == None
  {
    StrtolReadsAny(n, rest);
    StrtolReadsSigned(n, '-');
    assert ['-'] + Decimal(n) == "-" + Decimal(n);
  }

  lemma {:induction false} PrefixStage(log: seq<Event>, e: Event, n: nat)
    requires n <= |log|
    ensures StageAfter(log + [e], n) == StageAfter(log, n)
  {
    if n > 0 {
      PrefixStage(log, e, n - 1);
    }
  }

  // What the list tells

  /** The items of the list. */
  function ListItems(table: seq<Port>, stage: Stage): seq<string> {
    var names := PortNames(table, stage);
    Words(Printed(Listing(names, |names|), ListSize(|table|)))
  }

  /** The list shows all the ports exactly as long as their names are not too long for the buffer. */
  lemma ListIsComplete(table: seq<Port>, stage: Stage)
    ensures var names := PortNames(table, stage);
            ListItems(table, stage) == names <==> |Listing(names, |names|)| <= ListSize(|table|)
  {
    TruncatedList(PortNames(table, stage), ListSize(|table|));
  }

  /** How many ports fit the buffer. */
  function FittingPorts(table: seq<Port>, stage: Stage): (n: nat)
    ensures n <= |Ports(table, stage)|
  {
    var names := PortNames(table, stage);
    Fitting(names, ListSize(|table|), |names|)
  }

  /** The number which the digits of the next port make that still go into the buffer. */
  function CutPort(table: seq<Port>, stage: Stage): Option<nat> {
    var names, n := PortNames(table, stage), FittingPorts(table, stage);
    var used := |Listing(names, n)|;
    if n == |names| || ListSize(|table|) - 1 <= used then None
    else Some(Leading(Ports(table, stage)[n], ListSize(|table|) - 1 - used))
  }

  lemma CutPortIsCutItem(table: seq<Port>, stage: Stage)
    ensures CutItem(PortNames(table, stage), ListSize(|table|)) ==
            match CutPort(table, stage)
            case None => []
            case Some(port) => [Decimal(port)]
  {
    var ports, names, size := Ports(table, stage), PortNames(table, stage), ListSize(|table|);
    var n := FittingPorts(table, stage);
    if CutPort(table, stage).Some? {
      assert Listing(names, n + 1) == Listing(names, n) + (names[n] + " ");
      CutDecimal(ports[n], size - 1 - |Listing(names, n)|);
    }
  }

  /** The numbers on the list are the ports which fit, and possibly a part of the next one. */
  lemma ListedPorts(table: seq<Port>, stage: Stage, port: nat)
    ensures Decimal(port) in ListItems(table, stage) <==>
            port in Ports(table, stage)[..FittingPorts(table, stage)] || CutPort(table, stage) == Some(port)
  {
    var names, cut := PortNames(table, stage), CutPort(table, stage);
    TruncatedWords(names, ListSize(|table|));
    CutPortIsCutItem(table, stage);
    NamedIffListed(Ports(table, stage), names, FittingPorts(table, stage), port);
    if cut.Some? && Decimal(port) == Decimal(cut.value) {
      DecimalIsInjective(port, cut.value);
    }
  }

  lemma NamedIffListed(ports: seq<nat>, names: seq<string>, n: nat, port: nat)
    requires n <= |ports| == |names| && forall i :: 0 <= i < |names| ==> names[i] == Decimal(ports[i])
    ensures Decimal(port) in names[..n] <==> port in ports[..n]
  {
    if Decimal(port) in names[..n] {
      var i :| 0 <= i < n && names[i] == Decimal(port);
      DecimalIsInjective(port, ports[i]);
      assert ports[..n][i] == port;
    }
    if port in ports[..n] {
      var i :| 0 <= i < n && ports[i] == port;
      assert names[..n][i] == Decimal(port);
    }
  }

  lemma PortIdOfDecimal(port: nat)
    requires port <= 50
    ensures PortId(Decimal(port)) == Some(port)
  {
    StrtolReadsDecimal(port, "");
    assert Decimal(port) + "" == Decimal(port);
  }

  lemma KnownIffLookedUp(table: seq<Port>, stage: Stage, port: nat)
    ensures port in Ports(table, stage) <==> Lookup(table, stage, port).Ok?
  {
    var ports, k := Ports(table, stage), PortIndex(table, port, 0);
    if port in ports {
      var i :| 0 <= i < |ports| && ports[i] == port;
    }
    if k < |table| {
      assert ports[k] == port;
    } else if stage.Staged? && stage.port == port {
      assert ports[|table|] == port;
    }
  }

  /** Within a group, a port which may be asked for is listed if and only if it is found, unless it
      is a known port beyond the end of the buffer, or a number which is the rest of a longer one. */
  lemma ListedIffFound(table: seq<Port>, stage: Stage, port: nat)
    requires port <= 50
    ensures var ports := Ports(table, stage);
            (Decimal(port) in ListItems(table, stage) <==> Target(table, stage, Decimal(port)).Ok?) <==>
            if port in ports then port in ports[..FittingPorts(table, stage)] || CutPort(table, stage) == Some(port)
            else CutPort(table, stage) != Some(port)
  {
    ListedPorts(table, stage, port);
    PortIdOfDecimal(port);
    KnownIffLookedUp(table, stage, port);
  }

  /** The port makes list and lookup differ. */
  ghost predicate Betrays(table: seq<Port>, stage: Stage, port: nat) {
    Decimal(port) in ListItems(table, stage) <==> !Target(table, stage, Decimal(port)).Ok?
  }

  /** A number that is cut off is out of range or is a port as well, and every port in range which
      does not fit is on the list otherwise. */
  ghost predicate CutHarmlessly(table: seq<Port>, stage: Stage) {
    var ports, n, cut := Ports(table, stage), FittingPorts(table, stage), CutPort(table, stage);
    && (cut.Some? && cut.value <= 50 ==> cut.value in ports)
    && (forall i :: n <= i < |ports| && ports[i] <= 50 ==> ports[i] in ports[..n] || cut == Some(ports[i]))
  }

  lemma HarmlessCutsAgree(table: seq<Port>, stage: Stage, port: nat)
    requires CutHarmlessly(table, stage) && port <= 50
    ensures !Betrays(table, stage, port)
  {
    var ports, n := Ports(table, stage), FittingPorts(table, stage);
    ListedIffFound(table, stage, port);
    if port in ports {
      var i :| 0 <= i < |ports| && ports[i] == port;
      assert i < n ==> port == ports[..n][i];
    }
  }

  /** List and lookup agree on all ports if and only if nothing but harmless cuts is made. */
  lemma ListAgreesWithFind(table: seq<Port>, stage: Stage)
    ensures (forall port: nat :: port <= 50 ==> !Betrays(table, stage, port)) <==> CutHarmlessly(table, stage)
  {
    var ports, n, cut := Ports(table, stage), FittingPorts(table, stage), CutPort(table, stage);
    if CutHarmlessly(table, stage) {
      forall port: nat | port <= 50
        ensures !Betrays(table, stage, port)
      {
        HarmlessCutsAgree(table, stage, port);
      }
    }
    if forall port: nat :: port <= 50 ==> !Betrays(table, stage, port) {
      forall i | n <= i < |ports| && ports[i] <= 50
        ensures ports[i] in ports[..n] || cut == Some(ports[i])
      {
        assert !Betrays(table, stage, ports[i]);
        ListedIffFound(table, stage, ports[i]);
      }
      if cut.Some? && cut.value <= 50 {
        assert !Betrays(table, stage, cut.value);
        ListedIffFound(table, stage, cut.value);
      }
    }
  }

  lemma {:induction false} NamesOfShortPorts(names: seq<string>, n: nat)
    requires n <= |names| && forall i :: 0 <= i < |names| ==> |names[i]| <= 2
    ensures |Listing(names, n)| <= 3 * n
  {
    if n > 0 {
      NamesOfShortPorts(names, n - 1);
    }
  }

  /** With ports below 100 everything fits, so that list and lookup agree. */
  lemma ShortPortsFit(table: seq<Port>, stage: Stage)
    requires forall i :: 0 <= i < |table| ==> table[i].port < 100
    requires stage.Staged? ==> stage.port < 100
    ensures FittingPorts(table, stage) == |Ports(table, stage)| && CutPort(table, stage) == None
    ensures ListItems(table, stage) == PortNames(table, stage)
  {
    var names := PortNames(table, stage);
    forall i | 0 <= i < |names|
      ensures |names[i]| <= 2
    {
      DecimalLength(Ports(table, stage)[i]);
    }
    NamesOfShortPorts(names, |names|);
    ListIsComplete(table, stage);
  }

  // Three digits a port are too many

  lemma {:induction false} NamesOfLongPorts(names: seq<string>, n: nat)
    requires n <= |names| && forall i :: 0 <= i < n ==> |names[i]| == 3
    ensures |Listing(names, n)| == 4 * n
  {
    if n > 0 {
      NamesOfLongPorts(names, n - 1);
    }
  }

  lemma ThreeDigits(port: nat)
    requires 100 <= port < 1000
    ensures |Decimal(port)| == 3
  {
    DecimalLength(port);
  }

  /** Behind six ports with three digits, any port is hidden, though it is found. */
  lemma LongPortsHideOther(table: seq<Port>)
    requires |table| == 7 && (forall i :: 0 <= i < 6 ==> 100 <= table[i].port < 1000) && table[6].port <= 50
    ensures Betrays(table, Idle, table[6].port) && Target(table, Idle, Decimal(table[6].port)).Ok?
  {
    var names, port := PortNames(table, Idle), table[6].port;
    forall i | 0 <= i < 6
      ensures |names[i]| == 3
    {
      ThreeDigits(table[i].port);
    }
    NamesOfLongPorts(names, 6);
    assert Listing(names, 7) == Listing(names, 6) + (names[6] + " ");
    FittingIs(names, ListSize(7), 6);
    ListedIffFound(table, Idle, port);
    assert Ports(table, Idle)[6] == port;
    PortIdOfDecimal(port);
    KnownIffLookedUp(table, Idle, port);
  }

  lemma FirstTwoDigits(port: nat)
    requires 100 <= port < 1000
    ensures Leading(port, 2) == port / 10
  {
    DecimalLength(port);
    DecimalLength(port / 10);
  }

  lemma FiveLongPorts(table: seq<Port>)
    requires |table| == 5 && forall i :: 0 <= i < 5 ==> 100 <= table[i].port < 1000
    ensures FittingPorts(table, Idle) == 4 && CutPort(table, Idle) == Some(table[4].port / 10)
  {
    var names := PortNames(table, Idle);
    forall i | 0 <= i < 5
      ensures |names[i]| == 3
    {
      ThreeDigits(table[i].port);
    }
    NamesOfLongPorts(names, 5);
    NamesOfLongPorts(names, 4);
    FittingIs(names, ListSize(5), 4);
    FirstTwoDigits(table[4].port);
  }

  /** Of five ports with three digits, the last one is listed as its first two digits, a number
      which is not found. */
  lemma LongPortIsMistaken(table: seq<Port>)
    requires |table| == 5 && forall i :: 0 <= i < 5 ==> 100 <= table[i].port <= 255
    ensures var other := table[4].port / 10;
            Decimal(other) in ListItems(table, Idle) && !Target(table, Idle, Decimal(other)).Ok?
  {
    var other := table[4].port / 10;
    FiveLongPorts(table);
    ListedPorts(table, Idle, other);
    KnownIffLookedUp(table, Idle, other);
    StrtolReadsDecimal(other, "");
    assert Decimal(other) + "" == Decimal(other);
  }
}
