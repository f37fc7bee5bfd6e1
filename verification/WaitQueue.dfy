/**
  The queue of waiting threads in scheduler/g_queue.c: a singly linked list with head and tail.
 */
module WaitQueue {

  class QueueItem {
    var threadIdx: nat
    var next: QueueItem?
    ghost const owner: Queue

    constructor (threadIdx: nat, ghost owner: Queue)
      ensures this.threadIdx == threadIdx && this.owner == owner
    {
      this.threadIdx := threadIdx;
      this.owner := owner;
      this.next := null;
    }
  }

  class Queue {
    var head: QueueItem?
    var tail: QueueItem?
    ghost var items: seq<QueueItem>
    ghost var contents: seq<nat>

    /** The list is acyclic: following `next` from the head visits the items in order and then ends;
        the tail is the last item reached. */
    ghost predicate Valid()
      reads this, items
    {
      && |items| == |contents|
      && head == (if items == [] then null else items[0])
      && tail == (if items == [] then null else items[|items| - 1])
      && (forall j :: 0 <= j < |items| ==> items[j].owner == this && items[j].threadIdx == contents[j])
      && (forall j {:trigger items[j].next} :: 0 <= j < |items| ==> items[j].next == NextItem(items, j))
      && (forall j, k :: 0 <= j < k < |items| ==> items[j] != items[k])
    }

    /** The item after the `j`-th one. */
    static ghost function NextItem(items: seq<QueueItem>, j: nat): QueueItem? {
      if j + 1 < |items| then items[j + 1] else null
    }

    /** A queue none of whose objects has changed is still valid. */
    twostate lemma StillValid()
      requires old(Valid()) && unchanged(this) && forall j :: 0 <= j < |items| ==> unchanged(items[j])
      ensures Valid()
    {
      forall j | 0 <= j < |items|
        ensures items[j].next == NextItem(items, j)
      {
        assert old(items[j].next) == NextItem(items, j);
      }
    }

    /** `queue_init` */
    constructor ()
      ensures Valid() && contents == [] && items == []
    {
      head, tail := null, null;
      items, contents := [], [];
    }

    predicate IsEmpty()
      reads this
    {
      head == null
    }

    method Push(threadIdx: nat) returns (ghost added: QueueItem)
      requires Valid()
      modifies this, items
      ensures Valid() && contents == old(contents) + [threadIdx]
      ensures fresh(added) && items == old(items) + [added]
    {
      var item := new QueueItem(threadIdx, this);
      if IsEmpty() {
        head := item;
        tail := item;
      } else {
        tail.next := item;
        tail := item;
      }
      item.next := null;
      items := items + [item];
      contents := contents + [threadIdx];
      added := item;
    }

    /** The index popped, or -1 from an empty queue, which stays as it is. */
    method Pop() returns (threadIdx: int)
      requires Valid()
      modifies this
      ensures Valid()
      ensures old(contents) == [] ==> threadIdx == -1 && contents == [] && items == old(items)
      ensures old(contents) != [] ==>
                threadIdx == old(contents)[0] && contents == old(contents)[1..] && items == old(items)[1..]
    {
      if IsEmpty() {
        return -1;
      }
      var item := head;
      threadIdx := item.threadIdx;
      head := item.next;
      items, contents := items[1..], contents[1..];
      if IsEmpty() {
        tail := null;
      }
    }

    /** The item reached from the head by following `next` `k` times, if the list is that long. */
    ghost function Reach(k: nat): (r: QueueItem?)
      requires Valid()
      reads this, items
      ensures r == null || r in items
    {
      if k == 0 then head
      else
        var p := Reach(k - 1);
        if p == null then null else NextOf(p)
    }

    ghost function NextOf(p: QueueItem): (r: QueueItem?)
      requires Valid() && p in items
      reads this, items
      ensures r == null || r in items
    {
      var j :| 0 <= j < |items| && items[j] == p;
      assert p.next == NextItem(items, j);
      p.next
    }

    /** Walking the list from the head meets every item once, in queue order and ending at the tail,
        and then ends. */
    lemma {:induction false} WalkIsQueueOrder(k: nat)
      requires Valid()
      ensures k < |items| ==> Reach(k) == items[k] && items[k].threadIdx == contents[k]
      ensures k == |items| - 1 ==> Reach(k) == tail
      ensures k >= |items| ==> Reach(k) == null
    {
      if k > 0 {
        WalkIsQueueOrder(k - 1);
      }
    }
  }
}
