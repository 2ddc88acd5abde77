/** The singly linked tail queue (STAILQ) of include/te_queue.h: the head keeps the
    address of the final pointer cell, removal walks to the predecessor. */
module SinglyTailQueue {
  import opened Sequences

  /** The address of a pointer cell: the first pointer of a head or the next pointer of an entry. */
  datatype Cell<!T> = NoCell | HeadFirst(head: Head<T>) | NextOf(entry: Entry<T>)

  class Entry<T> {
    var next: Entry?<T>
    const item: T

    constructor (item: T)
      ensures this.item == item && next == null
    {
      this.item := item;
      next := null;
    }
  }

  ghost function HeadOf<T>(c: Cell<T>): set<Head<T>> {
    if c.HeadFirst? then {c.head} else {}
  }

  ghost function EntryOf<T>(c: Cell<T>): set<Entry<T>> {
    if c.NextOf? then {c.entry} else {}
  }

  /** The pointer written through a cell address. */
  method Store<T>(c: Cell<T>, e: Entry?<T>)
    requires !c.NoCell?
    modifies HeadOf(c)`first, EntryOf(c)`next
    ensures c.HeadFirst? ==> c.head.first == e
    ensures c.NextOf? ==> c.entry.next == e
  {
    match c
    case HeadFirst(h) => h.first := e;
    case NextOf(n) => n.next := e;
  }

  /** Element `i` of a queue, null behind the last one. */
  ghost function At<T>(s: seq<Entry<T>>, i: nat): Entry?<T> {
    if i < |s| then s[i] else null
  }

  class Head<T> {
    var first: Entry?<T>
    var last: Cell<T>
    /** The entries the queue stands for, front first. */
    ghost var elems: seq<Entry<T>>

    ghost predicate Valid()
      reads this, elems
    {
      && Distinct(elems)
      && first == At(elems, 0)
      && last == (if elems == [] then HeadFirst(this) else NextOf(elems[|elems| - 1]))
      && (forall i {:trigger elems[i].next} :: 0 <= i < |elems| ==> elems[i].next == At(elems, i + 1))
    }

    /** STAILQ_INIT on a new head. */
    constructor ()
      ensures Valid() && elems == []
    {
      first := null;
      last := NoCell;
      elems := [];
      new;
      last := HeadFirst(this);
    }

    /** STAILQ_INIT on a head in use. */
    method Init()
      modifies this
      ensures Valid() && elems == []
    {
      first := null;
      last := HeadFirst(this);
      elems := [];
    }

    method InsertHead(e: Entry<T>)
      requires Valid() && e !in elems
      modifies this, e
      ensures Valid() && elems == [e] + old(elems)
    {
      e.next := first;
      if e.next == null {
        last := NextOf(e);
      }
      first := e;
      elems := [e] + elems;
    }

    method InsertTail(e: Entry<T>)
      requires Valid() && e !in elems
      modifies this, elems, e
      ensures Valid() && elems == old(elems) + [e]
    {
      e.next := null;
      Store(last, e);
      last := NextOf(e);
      elems := elems + [e];
    }

    method InsertAfter(at: Entry<T>, e: Entry<T>)
      requires Valid() && at in elems && e !in elems
      modifies this, at, e
      ensures Valid() && elems == Inserted(old(elems), Position(old(elems), at) + 1, e)
    {
      ghost var k := Position(elems, at);
      e.next := at.next;
      if e.next == null {
        last := NextOf(e);
      }
      at.next := e;
      elems := Inserted(elems, k + 1, e);
    }

    method RemoveHead()
      requires Valid() && elems != []
      modifies this
      ensures Valid() && elems == old(elems)[1..]
    {
      assert elems[0].next == At(elems, 1);
      first := first.next;
      if first == null {
        last := HeadFirst(this);
      }
      elems := elems[1..];
    }

    /** STAILQ_REMOVE: a walk to the entry before the one to be removed. */
    method Remove(e: Entry<T>)
      requires Valid() && e in elems
      modifies this, elems
      ensures Valid() && elems == Without(old(elems), Position(old(elems), e))
      ensures e.next == old(e.next)
    {
      ghost var k := Position(elems, e);
      if first == e {
        RemoveHead();
      } else {
        var cur := first;
        ghost var i := 0;
        while cur.next != e
          invariant 0 <= i < k && cur == elems[i]
          decreases k - i
        {
          cur := cur.next;
          i := i + 1;
        }
        assert elems[k].next == At(elems, k + 1);
        cur.next := cur.next.next;
        if cur.next == null {
          last := NextOf(cur);
        }
        elems := Without(elems, k);
      }
    }

    /** STAILQ_CONCAT. */
    method Concat(src: Head<T>)
      requires this != src && Valid() && src.Valid()
      requires forall i, j :: 0 <= i < |elems| && 0 <= j < |src.elems| ==> elems[i] != src.elems[j]
      modifies this, elems, src
      ensures Valid() && src.Valid()
      ensures elems == old(elems) + old(src.elems) && src.elems == []
    {
      if src.first != null {
        Store(last, src.first);
        last := src.last;
        elems := elems + src.elems;
        src.Init();
      }
    }

    /** STAILQ_LAST: the entry around the final cell. */
    function Last(): (e: Entry?<T>)
      requires Valid()
      reads this, elems
      ensures e == if elems == [] then null else elems[|elems| - 1]
    {
      if first == null then null else last.entry
    }
  }
}
