/**
  The array of minheap-internal.h in the place of the set that the event base sees: pushing,
  erasing and looking at the top keep the two alike.
*/
module EventHeap {
  import opened Basics
  import opened EventQueues
  import opened EventLoop
  import opened EventDispatch
  import opened MinHeap

  // The array holds the events of the set, under their deadlines.
  ghost predicate Mirrors(h: Heap, b: EventBase)
    reads h, b
  {
    && h.Valid() && h.Elements() == b.heap
    && forall e | e in b.heap :: e in h.key && e in b.evs && h.key[e] == b.evs[e].deadline
  }

  /** min_heap_push_ as event_queue_insert_timeout calls it: what it says is whether there was room. */
  method Push(h: Heap, b: EventBase, e: nat, deadline: int, memory: bool) returns (ok: bool)
    requires Mirrors(h, b) && b.Queues() && e in b.evs && !b.evs[e].timeout && !b.evs[e].finalizing && e !in b.ctl
    modifies h, b
    ensures Mirrors(h, b) && b.Queues() && (ok <==> memory || old(h.n) < |old(h.p)|)
    ensures b.evs == old(b.evs)[e := old(b.evs)[e].(timeout := true, deadline := deadline, common := None)]
    ensures if ok then b.heap == old(b.heap) + {e} else b.adrift == old(b.adrift) + {e} && b.heap == old(b.heap)
  {
    b.QueueFacts(e);
    hide EventBase.Queues; hide Heap.Valid;
    ok := h.Push(e, deadline, memory);
    b.InsertHeap(e, deadline, ok);
  }

  /** min_heap_erase_ as event_queue_remove_timeout calls it: the event is there. */
  method Erase(h: Heap, b: EventBase, e: nat)
    requires Mirrors(h, b) && b.Queues() && e in b.evs && b.evs[e].timeout && b.evs[e].common.None? && e !in b.adrift
    modifies h, b
    ensures Mirrors(h, b) && b.Queues() && b.heap == old(b.heap) - {e}
    ensures b.evs == old(b.evs)[e := old(b.evs)[e].(timeout := false)]
  {
    b.QueueFacts(e);
    hide EventBase.Queues; hide Heap.Valid;
    var r := h.Erase(e);
    b.RemoveTimeout(e);
  }

  /** min_heap_top_ */
  method First(h: Heap, b: EventBase) returns (e: Option<nat>)
    requires Mirrors(h, b)
    ensures e.None? <==> b.heap == {}
    ensures e.Some? ==> Least(b.evs, b.heap, e.value)
  {
    hide Heap.Valid;
    e := h.Top();
  }
}
