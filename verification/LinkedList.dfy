/** The intrusive circular doubly linked list: a head element and the elements linked to it.
    `data` is the structure an element is embedded in. */
module LinkedList {

  class Elem<T> {
    var next: Elem?<T>
    var prev: Elem?<T>
    var data: T

    constructor (data: T)
      ensures this.data == data && next == null && prev == null
    {
      this.data := data;
      next := null;
      prev := null;
    }
  }

  ghost predicate Distinct<T>(es: seq<T>) {
    forall i, j :: 0 <= i < j < |es| ==> es[i] != es[j]
  }

  /** `list` is the head of a ring through exactly `es`, in this order. */
  ghost predicate Ring<T>(list: Elem<T>, es: seq<Elem<T>>)
    reads list`next, list`prev, es`next, es`prev
  {
    && list !in es && Distinct(es)
    && list.next == (if es == [] then list else es[0])
    && list.prev == (if es == [] then list else es[|es| - 1])
    && (forall i {:trigger es[i].next} :: 0 <= i < |es| ==> es[i].next == if i + 1 < |es| then es[i + 1] else list)
    && (forall i {:trigger es[i].prev} :: 0 <= i < |es| ==> es[i].prev == if i > 0 then es[i - 1] else list)
  }

  /** LIST_INIT. */
  method Init<T>(list: Elem<T>)
    modifies list`next, list`prev
    ensures Ring(list, [])
  {
    list.next := list;
    list.prev := list;
  }

  method Insert<T>(prev: Elem<T>, next: Elem<T>, elem: Elem<T>)
    requires elem != prev && elem != next
    modifies prev`next, next`prev, elem`next, elem`prev
    ensures elem.prev == prev && elem.next == next
    ensures prev.next == elem && next.prev == elem
  {
    elem.prev := prev;
    elem.next := next;
    next.prev := elem;
    prev.next := elem;
  }

  method PushBack<T>(list: Elem<T>, elem: Elem<T>, ghost es: seq<Elem<T>>)
    requires Ring(list, es) && elem != list && elem !in es
    modifies list`next, list`prev, elem`next, elem`prev, es`next
    ensures Ring(list, es + [elem])
  {
    Insert(list.prev, list, elem);
    assert forall i {:trigger es[i].prev} :: 0 <= i < |es| ==> es[i].prev == old(es[i].prev);
  }

  method Tail<T>(list: Elem<T>, ghost es: seq<Elem<T>>) returns (tail: Elem?<T>)
    requires Ring(list, es)
    ensures tail == if es == [] then null else es[|es| - 1]
  {
    tail := list.prev;
    if tail == list {
      return null;
    }
  }

  method PopTail<T>(list: Elem<T>, ghost es: seq<Elem<T>>) returns (tail: Elem?<T>)
    requires Ring(list, es)
    modifies list`next, list`prev, es`next
    ensures es == [] ==> tail == null && Ring(list, [])
    ensures es != [] ==> tail == es[|es| - 1] && Ring(list, es[..|es| - 1])
  {
    tail := list.prev;
    if tail == list {
      return null;
    }
    tail.prev.next := tail.next;
    list.prev := tail.prev;
  }

  /** The idx-th element from the tail, or null. */
  method GetElem<T>(list: Elem<T>, idx: nat, ghost es: seq<Elem<T>>) returns (elem: Elem?<T>)
    requires Ring(list, es)
    ensures elem == if idx < |es| then es[|es| - 1 - idx] else null
  {
    var e := list.prev;
    if e == list {
      return null;
    }
    var left := idx;
    while left != 0
      invariant 0 <= left <= idx && idx - left < |es|
      invariant e == es[|es| - 1 - (idx - left)]
    {
      left := left - 1;
      e := e.prev;
      if e == list {
        return null;
      }
    }
    return e;
  }

  /** Two rings without common elements. */
  ghost predicate Apart<T>(list: Elem<T>, es: seq<Elem<T>>, other: Elem<T>, os: seq<Elem<T>>) {
    list != other && other !in es && list !in os && forall e :: e in es ==> e !in os
  }

  /** `PushBack` leaves a ring apart from this one alone. */
  method PushBackApart<T>(list: Elem<T>, elem: Elem<T>, ghost es: seq<Elem<T>>, ghost other: Elem<T>, ghost os: seq<Elem<T>>)
    requires Ring(list, es) && elem != list && elem !in es
    requires Ring(other, os) && Apart(list, es, other, os) && elem != other && elem !in os
    modifies list`next, list`prev, elem`next, elem`prev, es`next
    ensures Ring(list, es + [elem]) && Ring(other, os)
  {
    PushBack(list, elem, es);
    assert forall i :: 0 <= i < |os| ==> os[i] in os && os[i] !in es;
    assert forall i :: 0 <= i < |os| ==> os[i].next == old(os[i].next) && os[i].prev == old(os[i].prev);
  }

  method PopTailApart<T>(list: Elem<T>, ghost es: seq<Elem<T>>, ghost other: Elem<T>, ghost os: seq<Elem<T>>)
    returns (tail: Elem?<T>)
    requires Ring(list, es) && es != []
    requires Ring(other, os) && Apart(list, es, other, os)
    modifies list`next, list`prev, es`next
    ensures tail == es[|es| - 1] && Ring(list, es[..|es| - 1]) && Ring(other, os)
  {
    tail := PopTail(list, es);
    assert forall i :: 0 <= i < |os| ==> os[i] in os && os[i] !in es;
    assert forall i :: 0 <= i < |os| ==> os[i].next == old(os[i].next) && os[i].prev == old(os[i].prev);
  }
}
