/** The circular queue (CIRCLEQ) of include/te_queue.h.

    Both ends of the list of entries are the address of the head itself, so
    the entries and the head form one ring.
 */
module CircularQueue {
  import opened Sequences

  /** What a pointer of the queue may be: nothing yet, the head of a queue, or an entry. */
  datatype Link<!T> = Unset | End(head: Head<T>) | At(entry: Entry<T>)

  class Entry<T> {
    var next: Link<T>
    var prev: Link<T>
    const item: T

    constructor (item: T)
      ensures this.item == item && next == Unset && prev == Unset
    {
      this.item := item;
      next, prev := Unset, Unset;
    }
  }

  /** Position `i` of the ring which the head and the entries `s` form: outside of `s` it is the head. */
  ghost function Ring<T>(h: Head<T>, s: seq<Entry<T>>, i: int): Link<T> {
    if 0 <= i < |s| then At(s[i]) else End(h)
  }

  /** The links of a ring into which an entry is put at position `k`. */
  lemma RingInserted<T>(h: Head<T>, s: seq<Entry<T>>, k: nat, e: Entry<T>)
    requires k <= |s| && e.prev == Ring(h, s, k - 1) && e.next == Ring(h, s, k)
    requires forall j {:trigger s[j].prev} :: 0 <= j < |s| ==>
               s[j].prev == if j == k then At(e) else Ring(h, s, j - 1)
    requires forall j {:trigger s[j].next} :: 0 <= j < |s| ==>
               s[j].next == if j == k - 1 then At(e) else Ring(h, s, j + 1)
    ensures var r := Inserted(s, k, e);
            && (forall i {:trigger r[i].prev} :: 0 <= i < |r| ==> r[i].prev == Ring(h, r, i - 1))
            && (forall i {:trigger r[i].next} :: 0 <= i < |r| ==> r[i].next == Ring(h, r, i + 1))
  {
    var r := Inserted(s, k, e);
    forall i | 0 <= i < |r|
      ensures r[i].prev == Ring(h, r, i - 1) && r[i].next == Ring(h, r, i + 1)
    {
      var j: int := if i < k then i else i - 1;
      assert i != k ==>
               && r[i] == s[j]
               && s[j].prev == (if j == k then At(e) else Ring(h, s, j - 1))
               && s[j].next == if j == k - 1 then At(e) else Ring(h, s, j + 1);
    }
  }

  /** The links of a ring from which the entry at position `k` is taken. */
  lemma RingWithout<T>(h: Head<T>, s: seq<Entry<T>>, k: nat)
    requires k < |s|
    requires forall j {:trigger s[j].prev} :: 0 <= j < |s| && j != k ==>
               s[j].prev == if j == k + 1 then Ring(h, s, k - 1) else Ring(h, s, j - 1)
    requires forall j {:trigger s[j].next} :: 0 <= j < |s| && j != k ==>
               s[j].next == if j == k - 1 then Ring(h, s, k + 1) else Ring(h, s, j + 1)
    ensures var r := Without(s, k);
            && (forall i {:trigger r[i].prev} :: 0 <= i < |r| ==> r[i].prev == Ring(h, r, i - 1))
            && (forall i {:trigger r[i].next} :: 0 <= i < |r| ==> r[i].next == Ring(h, r, i + 1))
  {
    var r := Without(s, k);
    forall i | 0 <= i < |r|
      ensures r[i].prev == Ring(h, r, i - 1) && r[i].next == Ring(h, r, i + 1)
    {
      var j := if i < k then i else i + 1;
      assert && r[i] == s[j]
             && s[j].prev == (if j == k + 1 then Ring(h, s, k - 1) else Ring(h, s, j - 1))
             && s[j].next == if j == k - 1 then Ring(h, s, k + 1) else Ring(h, s, j + 1);
    }
  }

  class Head<T> {
    var first: Link<T>
    var last: Link<T>
    /** The entries the queue stands for, front first. */
    ghost var elems: seq<Entry<T>>

    ghost predicate Valid()
      reads this, elems
    {
      && Distinct(elems)
      && first == Ring(this, elems, 0)
      && last == Ring(this, elems, |elems| - 1)
      && (forall i {:trigger elems[i].next} :: 0 <= i < |elems| ==> elems[i].next == Ring(this, elems, i + 1))
      && (forall i {:trigger elems[i].prev} :: 0 <= i < |elems| ==> elems[i].prev == Ring(this, elems, i - 1))
    }

    /** CIRCLEQ_INIT. */
    constructor ()
      ensures Valid() && elems == []
    {
      first, last := Unset, Unset;
      elems := [];
      new;
      first, last := End(this), End(this);
    }

    method InsertAfter(at: Entry<T>, e: Entry<T>)
      requires Valid() && at in elems && e !in elems
      modifies this, elems, e
      ensures Valid() && elems == Inserted(old(elems), Position(old(elems), at) + 1, e)
    {
      ghost var k: int := Position(elems, at) + 1;
      assert at.next == Ring(this, elems, k) && (k < |elems| ==> elems[k] != at);
      e.next := at.next;
      e.prev := At(at);
      if at.next == End(this) {
        last := At(e);
      } else {
        at.next.entry.prev := At(e);
      }
      at.next := At(e);
      assert forall j {:trigger elems[j].prev} :: 0 <= j < |elems| ==>
        elems[j].prev == if j == k then At(e) else Ring(this, elems, j - 1);
      assert forall j {:trigger elems[j].next} :: 0 <= j < |elems| ==>
        elems[j].next == if j == k - 1 then At(e) else Ring(this, elems, j + 1);
      RingInserted(this, elems, k, e);
      DistinctInserted(elems, k, e);
      elems := Inserted(elems, k, e);
    }

    method InsertBefore(at: Entry<T>, e: Entry<T>)
      requires Valid() && at in elems && e !in elems
      modifies this, elems, e
      ensures Valid() && elems == Inserted(old(elems), Position(old(elems), at), e)
    {
      ghost var k: int := Position(elems, at);
      assert at.prev == Ring(this, elems, k - 1) && (k > 0 ==> elems[k - 1] != at);
      e.next := At(at);
      e.prev := at.prev;
      if at.prev == End(this) {
        first := At(e);
      } else {
        at.prev.entry.next := At(e);
      }
      at.prev := At(e);
      assert forall j {:trigger elems[j].prev} :: 0 <= j < |elems| ==>
        elems[j].prev == if j == k then At(e) else Ring(this, elems, j - 1);
      assert forall j {:trigger elems[j].next} :: 0 <= j < |elems| ==>
        elems[j].next == if j == k - 1 then At(e) else Ring(this, elems, j + 1);
      RingInserted(this, elems, k, e);
      DistinctInserted(elems, k, e);
      elems := Inserted(elems, k, e);
    }

    method InsertHead(e: Entry<T>)
      requires Valid() && e !in elems
      modifies this, elems, e
      ensures Valid() && elems == [e] + old(elems)
    {
      e.next := first;
      e.prev := End(this);
      if last == End(this) {
        last := At(e);
      } else {
        first.entry.prev := At(e);
      }
      first := At(e);
      elems := [e] + elems;
    }

    method InsertTail(e: Entry<T>)
      requires Valid() && e !in elems
      modifies this, elems, e
      ensures Valid() && elems == old(elems) + [e]
    {
      e.next := End(this);
      e.prev := last;
      if first == End(this) {
        first := At(e);
      } else {
        last.entry.next := At(e);
      }
      last := At(e);
      elems := elems + [e];
    }

    method Remove(e: Entry<T>)
      requires Valid() && e in elems
      modifies this, elems
      ensures Valid() && elems == Without(old(elems), Position(old(elems), e))
      ensures e.next == old(e.next) && e.prev == old(e.prev)
    {
      ghost var k: int := Position(elems, e);
      assert e.prev == Ring(this, elems, k - 1) && (k > 0 ==> elems[k - 1] != e);
      assert e.next == Ring(this, elems, k + 1) && (k + 1 < |elems| ==> elems[k + 1] != e);
      if e.next == End(this) {
        last := e.prev;
      } else {
        e.next.entry.prev := e.prev;
      }
      if e.prev == End(this) {
        first := e.next;
      } else {
        e.prev.entry.next := e.next;
      }
      assert forall j {:trigger elems[j].prev} :: 0 <= j < |elems| && j != k ==>
        elems[j].prev == if j == k + 1 then Ring(this, elems, k - 1) else Ring(this, elems, j - 1);
      assert forall j {:trigger elems[j].next} :: 0 <= j < |elems| && j != k ==>
        elems[j].next == if j == k - 1 then Ring(this, elems, k + 1) else Ring(this, elems, j + 1);
      RingWithout(this, elems, k);
      DistinctWithout(elems, k);
      elems := Without(elems, k);
    }

    /** CIRCLEQ_REPLACE as defined where the system has none: the new entry is inserted after
        the old one, which is then removed. It takes the place of the old one wherever that is. */
    method Replace(e: Entry<T>, e2: Entry<T>)
      requires Valid() && e in elems && e2 !in elems
      modifies this, elems, e2
      ensures Valid() && elems == old(elems)[Position(old(elems), e) := e2]
    {
      ghost var was, k := elems, Position(elems, e);
      InsertAfter(e, e2);
      assert elems[k] == e && forall j :: 0 <= j < |elems| && elems[j] == e ==> j == k;
      Remove(e);
      assert elems == was[k := e2];
    }

    /** CIRCLEQ_FOREACH. */
    method Forward() returns (seen: seq<Entry<T>>)
      requires Valid()
      ensures seen == elems
    {
      seen := [];
      var v := first;
      while v != End(this)
        invariant |seen| <= |elems| && seen == elems[..|seen|] && v == Ring(this, elems, |seen|)
        decreases |elems| - |seen|
      {
        seen := seen + [v.entry];
        v := v.entry.next;
      }
    }

    /** CIRCLEQ_FOREACH_REVERSE. */
    method Backward() returns (seen: seq<Entry<T>>)
      requires Valid()
      ensures seen == Reversed(elems)
    {
      seen := [];
      var v := last;
      while v != End(this)
        invariant |seen| <= |elems| && v == Ring(this, elems, |elems| - 1 - |seen|)
        invariant forall i :: 0 <= i < |seen| ==> seen[i] == elems[|elems| - 1 - i]
        decreases |elems| - |seen|
      {
        seen := seen + [v.entry];
        v := v.entry.prev;
      }
    }

    /** Whether a link is a position of this ring. */
    ghost predicate OnRing(l: Link<T>)
      reads this
    {
      l == End(this) || (l.At? && l.entry in elems)
    }

    /** One step forward around the ring, through the head. */
    function Next(l: Link<T>): (n: Link<T>)
      requires Valid() && OnRing(l)
      reads this, elems
      ensures OnRing(n)
    {
      match l
      case End(_) => first
      case At(e) =>
        assert var k := Position(elems, e); e.next == Ring(this, elems, k + 1);
        e.next
    }

    /** One step backward around the ring, through the head. */
    function Prev(l: Link<T>): (p: Link<T>)
      requires Valid() && OnRing(l)
      reads this, elems
      ensures OnRing(p)
    {
      match l
      case End(_) => last
      case At(e) =>
        assert var k := Position(elems, e); e.prev == Ring(this, elems, k - 1);
        e.prev
    }

    lemma StepsAreInverse(l: Link<T>)
      requires Valid() && OnRing(l)
      ensures Prev(Next(l)) == l && Next(Prev(l)) == l
    {
      if l.At? {
        var k := Position(elems, l.entry);
        assert l == Ring(this, elems, k);
        assert k + 1 < |elems| ==> elems[k + 1].prev == Ring(this, elems, k);
        assert k > 0 ==> elems[k - 1].next == Ring(this, elems, k);
      }
    }
  }
}
