/**
 The singly linked list (`src/utils/linkedlist.ts`) and the FIFO queue over it
 (`src/utils/queue.ts`), on the heap: `head`, `tail`, the size and the `next`
 fields of the nodes are changed in place.
 */
module LinkedList {
  import opened Common

  class ListNode<T> {
    var data: T
    var next: ListNode?<T>

    constructor (data: T, next: ListNode?<T>)
      ensures this.data == data && this.next == next
    {
      this.data := data;
      this.next := next;
    }
  }

  ghost predicate Distinct<T>(nodes: seq<ListNode<T>>) {
    forall i, j :: 0 <= i < j < |nodes| ==> nodes[i] != nodes[j]
  }

  lemma {:induction false} DistinctAt<T>(nodes: seq<ListNode<T>>, i: nat)
    requires i < |nodes| && Distinct(nodes)
    ensures forall j :: 0 <= j < |nodes| && j != i ==> nodes[j] != nodes[i]
  {
  }

  lemma {:induction false} DistinctFront<T>(nodes: seq<ListNode<T>>)
    requires nodes != [] && Distinct(nodes)
    ensures Distinct(nodes[..|nodes| - 1])
  {
  }

  class LinkedList<T> {
    var head: ListNode?<T>
    var tail: ListNode?<T>
    var size: nat

    /** The nodes from head to tail. */
    ghost var nodes: seq<ListNode<T>>

    /**
     The nodes are linked in this order and no other: the list is acyclic, and the tail is the
     last reachable node.
     */
    ghost predicate Valid()
      reads this, nodes
    {
      size == |nodes| &&
      head == (if nodes == [] then null else nodes[0]) &&
      tail == (if nodes == [] then null else nodes[|nodes| - 1]) &&
      Distinct(nodes) &&
      forall i {:trigger nodes[i].next} :: 0 <= i < |nodes| ==>
        nodes[i].next == if i + 1 < |nodes| then nodes[i + 1] else null
    }

    ghost function Contents(): (s: seq<T>)
      reads this, nodes
    {
      seq(|nodes|, i requires 0 <= i < |nodes| reads this, nodes => nodes[i].data)
    }

    constructor ()
      ensures Valid() && Contents() == [] && nodes == []
    {
      head, tail, size := null, null, 0;
      nodes := [];
    }

    method AddFirst(data: T)
      requires Valid()
      modifies this
      ensures Valid() && Contents() == [data] + old(Contents())
      ensures fresh(set n | n in nodes && n !in old(nodes))
    {
      var node := new ListNode(data, head);
      head := node;
      if tail == null {
        tail := node;
      }
      size := size + 1;
      nodes := [node] + nodes;
    }

    method AddLast(data: T)
      requires Valid()
      modifies this, tail
      ensures Valid() && Contents() == old(Contents()) + [data]
      ensures fresh(set n | n in nodes && n !in old(nodes))
    {
      var node := new ListNode(data, null);
      if tail != null {
        tail.next := node;
        tail := node;
      } else {
        head, tail := node, node;
      }
      size := size + 1;
      nodes := nodes + [node];
      assert forall j :: 0 <= j < |old(nodes)| ==> nodes[j] == old(nodes)[j] && nodes[j].data == old(nodes[j].data);
    }

    method GetFirst() returns (data: Option<T>)
      requires Valid()
      ensures data == if Contents() == [] then None else Some(Contents()[0])
    {
      data := if head == null then None else Some(head.data);
    }

    method GetLast() returns (data: Option<T>)
      requires Valid()
      ensures data == if Contents() == [] then None else Some(Contents()[|Contents()| - 1])
    {
      data := if tail == null then None else Some(tail.data);
    }

    method RemoveFirst() returns (removed: bool)
      requires Valid()
      modifies this
      ensures Valid() && removed == (old(Contents()) != [])
      ensures Contents() == if removed then old(Contents())[1..] else []
      ensures forall n :: n in nodes ==> n in old(nodes)
    {
      if head == null {
        return false;
      }
      head := head.next;
      if head == null {
        tail := null;
      }
      size := size - 1;
      nodes := nodes[1..];
      removed := true;
    }

    /** The walk stops at the node before the tail. */
    method RemoveLast() returns (removed: bool)
      requires Valid()
      modifies this, nodes
      ensures Valid() && removed == (old(Contents()) != [])
      ensures Contents() == if removed then old(Contents())[..|old(Contents())| - 1] else []
      ensures forall n :: n in nodes ==> n in old(nodes)
    {
      if head == null {
        return false;
      }
      size := size - 1;
      if head == tail {
        assert |nodes| == 1;
        head, tail := null, null;
        nodes := [];
        return true;
      }
      var current := head;
      ghost var i := 0;
      while current.next != tail
        invariant 0 <= i < |nodes| - 1 && current == nodes[i]
        modifies {}
        decreases |nodes| - i
      {
        current := current.next;
        i := i + 1;
      }
      DistinctAt(nodes, i);
      DistinctFront(nodes);
      hide Distinct;
      tail := current;
      tail.next := null;
      nodes := nodes[..|nodes| - 1];
      assert forall j :: 0 <= j < |nodes| ==> nodes[j] == old(nodes)[j] && nodes[j].data == old(nodes[j].data);
      removed := true;
    }

    method Clear()
      modifies this
      ensures Valid() && Contents() == [] && nodes == []
    {
      head, tail, size := null, null, 0;
      nodes := [];
    }

    method ToArray() returns (values: seq<T>)
      requires Valid()
      ensures values == Contents()
    {
      values := [];
      var current := head;
      ghost var i := 0;
      while current != null
        invariant 0 <= i <= |nodes| && current == if i < |nodes| then nodes[i] else null
        invariant values == Contents()[..i]
        decreases |nodes| - i
      {
        values := values + [current.data];
        current := current.next;
        i := i + 1;
      }
    }
  }

  /** A queue of objects; JavaScript's `||` in `dequeue` turns falsy values into `null`, which objects never are. */
  class Queue<T> {
    const list: LinkedList<T>

    ghost predicate Valid()
      reads this, list, list.nodes
    {
      list.Valid()
    }

    ghost function Contents(): seq<T>
      reads this, list, list.nodes
    {
      list.Contents()
    }

    constructor ()
      ensures Valid() && Contents() == [] && fresh(list) && list.nodes == []
    {
      list := new LinkedList();
    }

    method Enqueue(data: T)
      requires Valid()
      modifies list, list.tail
      ensures Valid() && Contents() == old(Contents()) + [data]
      ensures fresh(set n | n in list.nodes && n !in old(list.nodes))
    {
      list.AddLast(data);
    }

    method Dequeue() returns (data: Option<T>)
      requires Valid()
      modifies list
      ensures Valid()
      ensures old(Contents()) == [] ==> data == None && Contents() == []
      ensures old(Contents()) != [] ==> data.Some? && old(Contents()) == [data.value] + Contents()
      ensures forall n :: n in list.nodes ==> n in old(list.nodes)
    {
      data := list.GetFirst();
      var _ := list.RemoveFirst();
    }

    method Size() returns (size: nat)
      requires Valid()
      ensures size == |Contents()|
    {
      size := list.size;
    }

    method Clear()
      modifies list
      ensures Valid() && Contents() == []
    {
      list.Clear();
    }
  }

  /** What was put into a queue, call by call: first in, first out. */
  datatype Call<T> = Enqueue(data: T) | Dequeue

  /** The sequence that a queue holds, and what its dequeues have returned so far. */
  datatype Trace<T> = Trace(contents: seq<T>, taken: seq<T>)

  function Calls<T>(t: Trace<T>, calls: seq<Call<T>>): Trace<T>
    decreases calls
  {
    if calls == [] then t else
      match calls[0]
      case Enqueue(x) => Calls(Trace(t.contents + [x], t.taken), calls[1..])
      case Dequeue =>
        if t.contents == [] then Calls(t, calls[1..])
        else Calls(Trace(t.contents[1..], t.taken + [t.contents[0]]), calls[1..])
  }

  function Enqueued<T>(calls: seq<Call<T>>): seq<T> {
    if calls == [] then [] else (if calls[0].Enqueue? then [calls[0].data] else []) + Enqueued(calls[1..])
  }

  /** However enqueues and dequeues alternate: taken elements, then waiting ones, are the enqueued ones in order. */
  lemma {:induction false} FirstInFirstOut<T>(t: Trace<T>, calls: seq<Call<T>>)
    ensures var r := Calls(t, calls);
            r.taken + r.contents == t.taken + t.contents + Enqueued(calls)
    decreases calls
  {
    if calls != [] {
      match calls[0]
      case Enqueue(x) =>
        FirstInFirstOut(Trace(t.contents + [x], t.taken), calls[1..]);
        assert t.taken + (t.contents + [x]) + Enqueued(calls[1..]) ==
               t.taken + t.contents + ([x] + Enqueued(calls[1..]));
      case Dequeue =>
        if t.contents == [] {
          FirstInFirstOut(t, calls[1..]);
        } else {
          FirstInFirstOut(Trace(t.contents[1..], t.taken + [t.contents[0]]), calls[1..]);
          assert t.taken + [t.contents[0]] + t.contents[1..] == t.taken + t.contents;
        }
        assert [] + Enqueued(calls[1..]) == Enqueued(calls[1..]);
    }
  }

  lemma {:induction false} CallsSnoc<T>(t: Trace<T>, calls: seq<Call<T>>, call: Call<T>)
    ensures Calls(t, calls + [call]) == Calls(Calls(t, calls), [call])
    decreases calls
  {
    if calls == [] {
      assert calls + [call] == [call];
    } else {
      assert (calls + [call])[1..] == calls[1..] + [call];
      match calls[0]
      case Enqueue(x) => CallsSnoc(Trace(t.contents + [x], t.taken), calls[1..], call);
      case Dequeue =>
        if t.contents == [] {
          CallsSnoc(t, calls[1..], call);
        } else {
          CallsSnoc(Trace(t.contents[1..], t.taken + [t.contents[0]]), calls[1..], call);
        }
    }
  }

  lemma {:induction false} OneCall<T>(t: Trace<T>, call: Call<T>)
    ensures Calls(t, [call]) ==
            match call
            case Enqueue(x) => Trace(t.contents + [x], t.taken)
            case Dequeue =>
              if t.contents == [] then t else Trace(t.contents[1..], t.taken + [t.contents[0]])
  {
    var one := [call];
    assert one[1..] == [];
  }

  /** One call on the heap is one call on its trace. */
  method PerformCall<T>(q: Queue<T>, call: Call<T>, taken: seq<T>) returns (taken': seq<T>)
    requires q.Valid()
    modifies q.list, q.list.nodes
    ensures q.Valid() && Trace(q.Contents(), taken') == Calls(Trace(old(q.Contents()), taken), [call])
    ensures fresh(set n | n in q.list.nodes && n !in old(q.list.nodes))
  {
    OneCall(Trace(q.Contents(), taken), call);
    taken' := taken;
    match call {
      case Enqueue(x) =>
        assert q.list.tail != null ==> q.list.tail in q.list.nodes;
        q.Enqueue(x);
      case Dequeue =>
        var data := q.Dequeue();
        if data.Some? {
          taken' := taken + [data.value];
        }
    }
  }

  /**
   Any calls on a new queue on the heap: what its dequeues return, and then what waits in it, is
   what was enqueued, in order.
   */
  method PerformCalls<T>(calls: seq<Call<T>>) returns (q: Queue<T>, taken: seq<T>)
    ensures fresh(q) && q.Valid()
    ensures Trace(q.Contents(), taken) == Calls(Trace([], []), calls)
    ensures taken + q.Contents() == Enqueued(calls)
  {
    q := new Queue();
    taken := [];
    for i := 0 to |calls|
      invariant fresh(q) && fresh(q.list) && q.Valid() && fresh(set n | n in q.list.nodes)
      invariant Trace(q.Contents(), taken) == Calls(Trace([], []), calls[..i])
    {
      assert calls[..i + 1] == calls[..i] + [calls[i]];
      CallsSnoc(Trace([], []), calls[..i], calls[i]);
      ghost var before := set n | n in q.list.nodes;
      taken := PerformCall(q, calls[i], taken);
      assert (set n | n in q.list.nodes) <= before + (set n | n in q.list.nodes && n !in before);
    }
    assert calls[..|calls|] == calls;
    FirstInFirstOut(Trace([], []), calls);
    assert [] + [] + Enqueued(calls) == Enqueued(calls);
  }
}
