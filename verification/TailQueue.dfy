/** The doubly linked tail queue (TAILQ) of include/te_queue.h.

    An entry does not point back to its predecessor: it keeps the address of
    the pointer cell which holds it. A cell is either the `tqh_first` field of
    a head or the `tqe_next` field of an entry. Both structures start with
    such a cell followed by a word which is itself the address of a cell, and
    TAILQ_LAST and TAILQ_PREV rely on that: they take an entry for a head.
 */
module TailQueue {
  import opened Sequences

  /** The address of a pointer cell; `NoCell` is the null address. */
  datatype Cell<!T> = NoCell | HeadFirst(head: Head<T>) | NextOf(entry: Entry<T>)

  class Entry<T> {
    var next: Entry?<T>
    var prev: Cell<T>
    const item: T

    constructor (item: T)
      ensures this.item == item && next == null && prev == NoCell
    {
      this.item := item;
      next := null;
      prev := NoCell;
    }
  }

  /** The object a cell belongs to. */
  ghost function Owner<T>(c: Cell<T>): set<object> {
    match c
    case NoCell => {}
    case HeadFirst(h) => {h}
    case NextOf(e) => {e}
  }

  /** The pointer read through a cell address. */
  function Load<T>(c: Cell<T>): Entry?<T>
    requires !c.NoCell?
    reads Owner(c)
  {
    match c
    case HeadFirst(h) => h.first
    case NextOf(e) => e.next
  }

  ghost function HeadOf<T>(c: Cell<T>): set<Head<T>> {
    if c.HeadFirst? then {c.head} else {}
  }

  ghost function EntryOf<T>(c: Cell<T>): set<Entry<T>> {
    if c.NextOf? then {c.entry} else {}
  }

  /** The pointer written through a cell address. */
  method Store<T>(c: Cell<T>, e: Entry?<T>)
    requires !c.NoCell?
    modifies HeadOf(c)`first, EntryOf(c)`next
    ensures Load(c) == e
  {
    match c
    case HeadFirst(h) => h.first := e;
    case NextOf(n) => n.next := e;
  }

  /** The word after a cell, read as the `tqh_last` of a head. */
  function WordAfter<T>(c: Cell<T>): Cell<T>
    requires !c.NoCell?
    reads Owner(c)
  {
    match c
    case HeadFirst(h) => h.last
    case NextOf(e) => e.prev
  }

  /** The cell which has to hold element `i` of a queue; cell |s| is the final, null one. */
  ghost function CellOf<T>(h: Head<T>, s: seq<Entry<T>>, i: nat): Cell<T>
    requires i <= |s|
  {
    if i == 0 then HeadFirst(h) else NextOf(s[i - 1])
  }

  /** The entry which follows element `i`. */
  ghost function After<T>(s: seq<Entry<T>>, i: nat): Entry?<T>
    requires i < |s|
  {
    if i + 1 < |s| then s[i + 1] else null
  }

  class Head<T> {
    var first: Entry?<T>
    var last: Cell<T>
    /** The entries the queue stands for, front first. */
    ghost var elems: seq<Entry<T>>

    ghost predicate Valid()
      reads this, elems
    {
      && Distinct(elems)
      && first == (if elems == [] then null else elems[0])
      && last == CellOf(this, elems, |elems|)
      && (forall i {:trigger elems[i].next} :: 0 <= i < |elems| ==> elems[i].next == After(elems, i))
      && (forall i {:trigger elems[i].prev} :: 0 <= i < |elems| ==> elems[i].prev == CellOf(this, elems, i))
    }

    /** TAILQ_INIT on a new head. */
    constructor ()
      ensures Valid() && elems == []
    {
      first := null;
      last := NoCell;
      elems := [];
      new;
      last := HeadFirst(this);
    }

    /** TAILQ_INIT on a head in use: its entries are forgotten, not touched. */
    method Init()
      modifies this
      ensures Valid() && elems == []
    {
      first := null;
      last := HeadFirst(this);
      elems := [];
    }

    method InsertHead(e: Entry<T>)
      requires Valid() && e !in elems
      modifies this, elems, e
      ensures Valid() && elems == [e] + old(elems)
    {
      e.next := first;
      if e.next != null {
        first.prev := NextOf(e);
      } else {
        last := NextOf(e);
      }
      first := e;
      e.prev := HeadFirst(this);
      elems := [e] + elems;
    }

    method InsertTail(e: Entry<T>)
      requires Valid() && e !in elems
      modifies this, EntryOf(last)`next, e
      ensures Valid() && elems == old(elems) + [e] && last == NextOf(e)
    {
      e.next := null;
      e.prev := last;
      Store(last, e);
      last := NextOf(e);
      elems := elems + [e];
    }

    method InsertAfter(at: Entry<T>, e: Entry<T>)
      requires Valid() && at in elems && e !in elems
      modifies this, elems, e
      ensures Valid() && elems == Inserted(old(elems), Position(old(elems), at) + 1, e)
    {
      ghost var k := Position(elems, at) + 1;
      assert k < |elems| ==> at.next == elems[k] && elems[k] != at;
      e.next := at.next;
      if e.next != null {
        e.next.prev := NextOf(e);
      } else {
        last := NextOf(e);
      }
      at.next := e;
      e.prev := NextOf(at);
      ghost var was := elems;
      DistinctInserted(was, k, e);
      elems := Inserted(elems, k, e);
      forall i {:trigger elems[i].prev} | 0 <= i < |elems|
        ensures elems[i].prev == CellOf(this, elems, i)
      {
        var j := if i < k then i else i - 1;
        InsertedAt(was, k, e, i);
        assert i != k ==> old(was[j].prev) == CellOf(this, was, j);
        assert i != k && i != k + 1 ==> was[j].prev == old(was[j].prev);
      }
      forall i {:trigger elems[i].next} | 0 <= i < |elems|
        ensures elems[i].next == After(elems, i)
      {
        var j := if i < k then i else i - 1;
        InsertedAt(was, k, e, i);
        assert i != k ==> old(was[j].next) == After(was, j);
        assert i != k && i + 1 != k ==> was[j].next == old(was[j].next);
      }
    }

    /** The macro is not given the head, so the method may not look at it
        otherwise than through the cell of `at`. */
    method InsertBefore(at: Entry<T>, e: Entry<T>)
      requires Valid() && at in elems && e !in elems
      modifies this, elems, e
      ensures Valid() && elems == Inserted(old(elems), Position(old(elems), at), e)
    {
      ghost var k := Position(elems, at);
      e.prev := at.prev;
      e.next := at;
      match at.prev {
        case HeadFirst(h) => h.first := e;
        case NextOf(n) => n.next := e;
        case NoCell => assert false;
      }
      at.prev := NextOf(e);
      ghost var was := elems;
      DistinctInserted(was, k, e);
      elems := Inserted(elems, k, e);
      forall i {:trigger elems[i].prev} | 0 <= i < |elems|
        ensures elems[i].prev == CellOf(this, elems, i)
      {
        var j := if i < k then i else i - 1;
        InsertedAt(was, k, e, i);
        assert i != k ==> old(was[j].prev) == CellOf(this, was, j);
        assert i != k && i != k + 1 ==> was[j].prev == old(was[j].prev);
      }
      forall i {:trigger elems[i].next} | 0 <= i < |elems|
        ensures elems[i].next == After(elems, i)
      {
        var j := if i < k then i else i - 1;
        InsertedAt(was, k, e, i);
        assert i != k ==> old(was[j].next) == After(was, j);
        assert i != k && i + 1 != k ==> was[j].next == old(was[j].next);
      }
    }

    method Remove(e: Entry<T>)
      requires Valid() && e in elems
      modifies this, elems
      ensures Valid() && elems == Without(old(elems), Position(old(elems), e))
      ensures e.next == old(e.next) && e.prev == old(e.prev) && e !in elems
    {
      ghost var k := Position(elems, e);
      assert k > 0 ==> e.prev == NextOf(elems[k - 1]) && elems[k - 1] != e;
      assert k + 1 < |elems| ==> e.next == elems[k + 1] && elems[k + 1] != e;
      if e.next != null {
        e.next.prev := e.prev;
      } else {
        last := e.prev;
      }
      match e.prev {
        case HeadFirst(h) => h.first := e.next;
        case NextOf(n) => n.next := e.next;
        case NoCell => assert false;
      }
      ghost var was := elems;
      DistinctWithout(was, k);
      elems := Without(elems, k);
      forall i {:trigger elems[i].prev} | 0 <= i < |elems|
        ensures elems[i].prev == CellOf(this, elems, i)
      {
        var j := if i < k then i else i + 1;
        WithoutAt(was, k, i);
        assert old(was[j].prev) == CellOf(this, was, j);
        assert j != k + 1 ==> was[j].prev == old(was[j].prev);
      }
      forall i {:trigger elems[i].next} | 0 <= i < |elems|
        ensures elems[i].next == After(elems, i)
      {
        var j := if i < k then i else i + 1;
        WithoutAt(was, k, i);
        assert old(was[j].next) == After(was, j);
        assert j + 1 != k ==> was[j].next == old(was[j].next);
      }
    }

    /** TAILQ_CONCAT. */
    method Concat(src: Head<T>)
      requires this != src && Valid() && src.Valid()
      requires forall i, j :: 0 <= i < |elems| && 0 <= j < |src.elems| ==> elems[i] != src.elems[j]
      modifies this, elems, src, src.elems
      ensures Valid() && src.Valid()
      ensures elems == old(elems) + old(src.elems) && src.elems == []
    {
      if src.first != null {
        Store(last, src.first);
        src.first.prev := last;
        last := src.last;
        elems := elems + src.elems;
        src.Init();
      }
    }

    /** TAILQ_LAST: the head's last cell is taken for the first word of a head. */
    function Last(): (e: Entry?<T>)
      requires Valid()
      reads this, elems
      ensures e == if elems == [] then null else elems[|elems| - 1]
    {
      assert elems != [] ==> elems[|elems| - 1].prev == CellOf(this, elems, |elems| - 1);
      Load(WordAfter(last))
    }

    /** TAILQ_PREV: the cell which holds the entry is taken for the first word of a head. */
    function Prev(e: Entry<T>): (p: Entry?<T>)
      requires Valid() && e in elems
      reads this, elems
      ensures var k := Position(elems, e); p == if k == 0 then null else elems[k - 1]
    {
      assert var k := Position(elems, e);
        e.prev == CellOf(this, elems, k) && (k > 0 ==> elems[k - 1].prev == CellOf(this, elems, k - 1));
      Load(WordAfter(e.prev))
    }

    /** TAILQ_FOREACH. */
    method Forward() returns (seen: seq<Entry<T>>)
      requires Valid()
      ensures seen == elems
    {
      seen := [];
      var v := first;
      while v != null
        invariant |seen| <= |elems| && seen == elems[..|seen|] && v == if |seen| < |elems| then elems[|seen|] else null
        decreases |elems| - |seen|
      {
        seen := seen + [v];
        v := v.next;
      }
    }

    /** TAILQ_FOREACH_REVERSE. */
    method Backward() returns (seen: seq<Entry<T>>)
      requires Valid()
      ensures seen == Reversed(elems)
    {
      seen := [];
      var v := Last();
      while v != null
        invariant |seen| <= |elems| && seen == Reversed(elems)[..|seen|]
        invariant v == if |seen| == |elems| then null else elems[|elems| - 1 - |seen|]
        decreases |elems| - |seen|
      {
        seen := seen + [v];
        v := Prev(v);
      }
    }

    // The consistency checks which the macros make before they touch a queue.

    /** QMD_TAILQ_CHECK_HEAD. */
    ghost predicate HeadCheck()
      reads this, first
    {
      first != null ==> first.prev == HeadFirst(this)
    }

    /** QMD_TAILQ_CHECK_TAIL. */
    ghost predicate TailCheck()
      reads this, Owner(last)
    {
      !last.NoCell? && Load(last) == null
    }

    /** QMD_TAILQ_CHECK_NEXT. */
    ghost predicate NextCheck(e: Entry<T>)
      reads e, e.next
    {
      e.next != null ==> e.next.prev == NextOf(e)
    }

    /** QMD_TAILQ_CHECK_PREV. */
    ghost predicate PrevCheck(e: Entry<T>)
      reads e, Owner(e.prev)
    {
      !e.prev.NoCell? && Load(e.prev) == e
    }

    /** `elems` is what the forward pointers lead through. */
    ghost predicate Chained()
      reads this, elems
    {
      && Distinct(elems)
      && first == (if elems == [] then null else elems[0])
      && (forall i {:trigger elems[i].next} :: 0 <= i < |elems| ==> elems[i].next == After(elems, i))
    }

    /** The checks are exactly what a forward chain misses to be a queue, as long as the
        head's last cell is one of the queue's own. */
    lemma ChecksDecideValid()
      ensures Valid() <==>
                && Chained() && (exists i :: 0 <= i <= |elems| && last == CellOf(this, elems, i))
                && HeadCheck() && TailCheck() && forall i :: 0 <= i < |elems| ==> NextCheck(elems[i])
      ensures Valid() ==> forall i :: 0 <= i < |elems| ==> PrevCheck(elems[i])
    {
      if Valid() {
        assert last == CellOf(this, elems, |elems|);
        forall i | 0 <= i < |elems|
          ensures NextCheck(elems[i]) && PrevCheck(elems[i])
        {
          assert i + 1 < |elems| ==> elems[i + 1].prev == CellOf(this, elems, i + 1);
          assert elems[i].prev == CellOf(this, elems, i);
          assert i > 0 ==> elems[i - 1].next == elems[i];
        }
      }
      if
        && Chained() && (exists i :: 0 <= i <= |elems| && last == CellOf(this, elems, i))
        && HeadCheck() && TailCheck() && (forall i :: 0 <= i < |elems| ==> NextCheck(elems[i]))
      {
        var k :| 0 <= k <= |elems| && last == CellOf(this, elems, k);
        assert k > 0 ==> Load(last) == elems[k - 1].next;
        forall i {:trigger elems[i].prev} | 0 <= i < |elems|
          ensures elems[i].prev == CellOf(this, elems, i)
        {
          assert i > 0 ==> NextCheck(elems[i - 1]) && elems[i - 1].next == elems[i];
        }
      }
    }
  }
}
