/**
 * ADM_ptrQueue: a singly linked list with a head and a tail pointer, refining a sequence. The ghost
 * `spine` lists the nodes from head to tail.
 */
module PtrQueues {

  datatype Option<+T> = None | Some(value: T)

  class QueueElem<T> {
    var next: QueueElem?<T>
    var data: T

    constructor (data: T)
      ensures next == null && this.data == data
    {
      next, this.data := null, data;
    }
  }

  class PtrQueue<T> {
    var head: QueueElem?<T>
    var tail: QueueElem?<T>
    ghost var spine: seq<QueueElem<T>>

    /** Linked in order, from head to tail, without repetition: so it ends at tail and has no cycle. */
    ghost predicate Valid()
      reads this, spine
    {
      && (head == null <==> spine == []) && (tail == null <==> spine == [])
      && (spine != [] ==> head == spine[0] && tail == spine[|spine| - 1] && tail.next == null)
      && (forall i :: 0 < i < |spine| ==> spine[i - 1].next == spine[i])
      && (forall i, j :: 0 <= i < j < |spine| ==> spine[i] != spine[j])
    }

    ghost function Contents(): (s: seq<T>)
      reads this, spine
      ensures |s| == |spine|
    {
      seq(|spine|, i requires 0 <= i < |spine| reads this, spine => spine[i].data)
    }

    constructor ()
      ensures Valid() && Contents() == [] && spine == []
    {
      head, tail, spine := null, null, [];
    }

    /** Its assertion, that an empty queue has no tail, holds. */
    method IsEmpty() returns (empty: bool)
      requires Valid()
      ensures empty <==> Contents() == []
    {
      if head != null {
        return false;
      }
      assert tail == null;
      return true;
    }

    /** The walk visits every node and ends. */
    method Clear()
      requires Valid()
      modifies this
      ensures Valid() && Contents() == [] && spine == []
    {
      var elem := head;
      ghost var visited := 0;
      while elem != null
        invariant visited <= |spine|
        invariant elem == if visited < |spine| then spine[visited] else null
        decreases |spine| - visited
      {
        elem := elem.next;
        visited := visited + 1;
      }
      head, tail, spine := null, null, [];
    }

    /** Both push and pushBack append behind the tail. */
    method Push(data: T)
      requires Valid()
      modifies this, spine
      ensures Valid() && Contents() == old(Contents()) + [data]
      ensures |spine| == |old(spine)| + 1 && spine[..|old(spine)|] == old(spine) && fresh(spine[|old(spine)|])
    {
      var elem := new QueueElem(data);
      if head == null {
        head, tail := elem, elem;
        spine := [elem];
        return;
      }
      tail.next := elem;
      tail := elem;
      spine := spine + [elem];
    }

    method PushBack(data: T)
      requires Valid()
      modifies this, spine
      ensures Valid() && Contents() == old(Contents()) + [data]
      ensures |spine| == |old(spine)| + 1 && spine[..|old(spine)|] == old(spine) && fresh(spine[|old(spine)|])
    {
      var elem := new QueueElem(data);
      if tail != null {
        tail.next := elem;
        tail := elem;
        spine := spine + [elem];
      } else {
        head, tail := elem, elem;
        spine := [elem];
      }
    }

    /** pop asserts that the queue is not empty before it looks whether it is. */
    method Pop() returns (r: T)
      requires Valid() && Contents() != []
      modifies this
      ensures Valid() && [r] + Contents() == old(Contents())
      ensures spine == old(spine)[1..]
    {
      assert |spine| > 1 ==> spine[0].next == spine[1];
      r := head.data;
      head := head.next;
      spine := spine[1..];
      if head == null {
        head, tail := null, null;
      }
      assert old(Contents()) == [r] + Contents();
    }

    /** popBack walks from the head to the node before the tail. */
    method PopBack() returns (r: Option<T>)
      requires Valid()
      modifies this, spine
      ensures Valid()
      ensures old(Contents()) == [] ==> r == None && Contents() == []
      ensures old(Contents()) != [] ==> r.Some? && Contents() + [r.value] == old(Contents())
      ensures old(spine) != [] ==> spine == old(spine)[..|old(spine)| - 1]
    {
      var empty := IsEmpty();
      if empty {
        return None;
      }
      r := Some(tail.data);
      if head == tail {
        assert |spine| == 1;
        head, tail, spine := null, null, [];
        return;
      }
      var h := head;
      ghost var at := 0;
      while h.next != tail
        invariant 0 <= at < |spine| - 1 && h == spine[at]
        decreases |spine| - at
      {
        h := h.next;
        at := at + 1;
      }
      assert spine[at].next == spine[at + 1];
      assert at + 1 == |spine| - 1;
      h.next := null;
      tail := h;
      spine := spine[..|spine| - 1];
    }
  }
}
