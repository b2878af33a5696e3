/** The doubly linked list of Go's container/list, as far as the cache uses it. */
module LinkedList {
  import opened Sequences

  class Element<T> {
    var prev: Element?<T>
    var next: Element?<T>
    const value: T

    constructor (value: T)
      ensures this.value == value && prev == null && next == null
    {
      this.value, this.prev, this.next := value, null, null;
    }
  }

  class List<T> {
    var head: Element?<T>
    var tail: Element?<T>
    var len: nat

    /** The elements, front first. */
    ghost var nodes: seq<Element<T>>

    ghost predicate Valid()
      reads this, nodes
    {
      Links(nodes)
    }

    /** The list consists of these elements, each linked to its neighbours. */
    ghost predicate Links(nodes: seq<Element<T>>)
      reads `head, `tail, `len, nodes
    {
      && len == |nodes|
      && head == (if nodes == [] then null else nodes[0])
      && tail == (if nodes == [] then null else nodes[|nodes| - 1])
      && (forall i, j :: 0 <= i < j < |nodes| ==> nodes[i] != nodes[j])
      && (forall i {:trigger nodes[i].next} :: 0 <= i < |nodes| ==>
            nodes[i].next == if i + 1 < |nodes| then nodes[i + 1] else null)
      && (forall i {:trigger nodes[i].prev} :: 0 <= i < |nodes| ==>
            nodes[i].prev == if 0 < i then nodes[i - 1] else null)
    }

    constructor ()
      ensures Valid() && nodes == []
    {
      head, tail, len, nodes := null, null, 0, [];
    }

    /** Links an element that is in no list in front of the others. */
    method LinkFront(e: Element<T>)
      requires Valid() && e !in nodes
      modifies this, nodes, e
      ensures Valid()
      ensures nodes == [e] + old(nodes)
    {
      e.prev, e.next := null, head;
      if head == null {
        tail := e;
      } else {
        head.prev := e;
      }
      head, len := e, len + 1;
      nodes := [e] + nodes;
      assert forall i :: 1 <= i < |nodes| ==> nodes[i] == old(nodes)[i - 1];
    }

    method PushFront(value: T) returns (e: Element<T>)
      requires Valid()
      modifies this, nodes
      ensures Valid() && fresh(e) && e.value == value
      ensures nodes == [e] + old(nodes)
    {
      e := new Element(value);
      LinkFront(e);
    }

    /** Links the neighbours of the element at position `k` to each other. */
    method Unlink(e: Element<T>, ghost k: nat)
      requires Valid() && k < |nodes| && nodes[k] == e
      modifies `head, `tail, `len, nodes
      ensures Links(Without(nodes, k))
    {
      ghost var rest := Without(nodes, k);
      WithoutAt(nodes, k);
      hide Without;
      assert e.next == if k + 1 < |nodes| then nodes[k + 1] else null;
      assert e.prev == if 0 < k then nodes[k - 1] else null;
      if e.prev == null { head := e.next; } else { e.prev.next := e.next; }
      if e.next == null { tail := e.prev; } else { e.next.prev := e.prev; }
      e.prev, e.next, len := null, null, len - 1;
      forall i | 0 <= i < |rest|
        ensures rest[i].next == if i + 1 < |rest| then rest[i + 1] else null
        ensures rest[i].prev == if 0 < i then rest[i - 1] else null
      {
        var j := if i < k then i else i + 1;
        assert rest[i] == nodes[j] && nodes[j] != e;
        assert i + 1 < |rest| ==> rest[i + 1] == nodes[if i + 1 < k then i + 1 else i + 2];
        assert 0 < i ==> rest[i - 1] == nodes[if i - 1 < k then i - 1 else i];
      }
    }

    /** Takes the element at position `k` out; its own links are cleared. */
    method Remove(e: Element<T>, ghost k: nat)
      requires Valid() && k < |nodes| && nodes[k] == e
      modifies this, nodes
      ensures Valid()
      ensures nodes == Without(old(nodes), k)
    {
      hide Links;
      Unlink(e, k);
      nodes := Without(nodes, k);
    }

    method MoveToFront(e: Element<T>, ghost k: nat)
      requires Valid() && k < |nodes| && nodes[k] == e
      modifies this, nodes
      ensures Valid()
      ensures nodes == [e] + Without(old(nodes), k)
    {
      if head == e {
        assert nodes == [e] + Without(nodes, k);
      } else {
        Remove(e, k);
        LinkFront(e);
      }
    }
  }
}
