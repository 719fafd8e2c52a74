/**
  The event base of event.c: the queues and counters of one base as a class, adding to and
  removing from each of them, and deleting, activating and scheduling events.

  One thread holds the base. The clock is a parameter.
*/
module EventLoop {
  import opened Basics
  import opened Lists
  import opened EventQueues

  // The internal event of a common-timeout queue: no fd, never finalized or postponed by anyone.
  ghost predicate CtlOk(evs: Events, ctl: seq<nat>) {
    && NoDup(ctl)
    && forall k | 0 <= k < |ctl| ::
      && ctl[k] in evs && evs[ctl[k]].internal && !evs[ctl[k]].io && !evs[ctl[k]].persist && !evs[ctl[k]].finalizing
      && !evs[ctl[k]].later && (evs[ctl[k]].timeout ==> evs[ctl[k]].common.None?)
  }

  // The internal event c will look at a queue headed by `head` in time.
  ghost predicate Serves(evs: Events, c: nat, head: nat) {
    && c in evs && head in evs
    && (evs[c].active || (evs[c].timeout && evs[c].common.None? && evs[c].deadline <= evs[head].deadline))
  }

  // The internal event c is neither active nor waiting for a deadline: it will never run.
  ghost predicate Asleep(evs: Events, c: nat) {
    c in evs && !evs[c].active && !evs[c].timeout
  }

  // Every common queue with something in it is served, except perhaps number k0 and
  // certainly those that are lost.
  ghost predicate Served(evs: Events, common: seq<seq<nat>>, ctl: seq<nat>, lost: set<nat>, k0: int) {
    && |ctl| == |common|
    && (forall k: nat | k < |common| && k != k0 && k !in lost && |common[k]| > 0 :: Serves(evs, ctl[k], common[k][0]))
    && (forall k: nat | k < |ctl| && k in lost :: Asleep(evs, ctl[k]))
  }

  // The event in no queue at all.
  function Idle(ev: Event): Event {
    ev.(inserted := false, active := false, later := false, timeout := false)
  }

  // The event once it is in the active queue: reasons add up while it waits there.
  function Activated(ev: Event, t: bool): Event {
    ev.(active := true, later := false, timedOut := ((ev.active || ev.later) && ev.timedOut) || t)
  }

  // The same for the active-later queue, unless it is active already.
  function Postponed(ev: Event, t: bool): Event {
    ev.(later := !ev.active, timedOut := ((ev.active || ev.later) && ev.timedOut) || t)
  }

  // The event after its timeout has been noticed.
  function Fired(ev: Event): Event {
    Idle(ev).(active := true, timedOut := true)
  }

  ghost predicate Below(evs: Events, limit: nat) {
    forall e | e in evs :: e < limit
  }

  // ev_io_timeout is set
  predicate Repeats(ev: Event) {
    ev.persist && !ev.finalizing && (ev.interval.time != 0 || ev.interval.common.Some?)
  }

  // The assertion of event_persist_closure: the interval is of the same kind as the deadline.
  ghost predicate Rearmable(evs: Events, n: nat) {
    forall e | e in evs && Repeats(evs[e]) :: Consistent(evs[e], n)
  }

  // n is the number of common queues.
  ghost predicate Consistent(ev: Event, n: nat) {
    ev.interval.common == ev.common && (ev.common.Some? ==> ev.common.value < n)
  }

  class EventBase {
    var evs: Events
    var limit: nat
    var active: seq<seq<nat>>
    var laterQ: seq<nat>
    var heap: set<nat>
    var common: seq<seq<nat>>
    var ctl: seq<nat>
    var durations: seq<int>
    var fds: set<nat>
    var count: int
    var countActive: int
    // common queues whose internal event could not be put into the heap
    ghost var lost: set<nat>
    // events that carry EVLIST_TIMEOUT but could not be put into the heap
    ghost var adrift: set<nat>

    /** event_base_priority_init on a new base: n active queues, nothing in them */
    constructor (n: nat)
      ensures Valid() && evs == map[] && |active| == n && common == [] && lost == {} && adrift == {}
    {
      evs, limit, active, laterQ, heap, common, ctl, durations := map[], 0, seq(n, _ => []), [], {}, [], [], [];
      fds, count, countActive, lost, adrift := {}, 0, 0, {}, {};
      new;
      EmptyLengths(active);
    }

    ghost predicate Queues()
      reads this
    {
      && Below(evs, limit)
      && ActiveOk(evs, active) && LaterOk(evs, laterQ) && HeapOk(evs, heap + adrift) && CommonOk(evs, common)
      && heap !! adrift && (forall k | 0 <= k < |ctl| :: ctl[k] !in adrift)
      && FdOk(evs, fds) && FlagsOk(evs) && CtlOk(evs, ctl)
      && count == TotalWeight(evs, limit) && countActive == Lengths(active) + |laterQ|
    }

    // Everything, except that common queue k0 may lack its internal event.
    ghost predicate ValidBut(k0: int)
      reads this
    {
      Queues() && Served(evs, common, ctl, lost, k0) && Rearmable(evs, |common|) && |durations| == |ctl|
    }

    ghost predicate Valid()
      reads this
    {
      ValidBut(-1)
    }

    lemma FinalizingNow(e: nat)
      requires ValidBut(-1) && e in evs && evs[e].finalizing
      ensures !evs[e].timeout && !evs[e].inserted
    {
      QueueFacts(e);
    }

    lemma RearmFact(e: nat)
      requires ValidBut(-1) && e in evs && Repeats(evs[e])
      ensures Consistent(evs[e], |common|)
    {
    }

    lemma CtlThere(k: nat)
      requires ValidBut(-1) && k < |common|
      ensures k < |ctl| && ctl[k] in evs && ctl[k] in ctl
    {
    }

    lemma HeapNow()
      requires ValidBut(-1)
      ensures forall x | x in heap :: x in evs && evs[x].timeout && evs[x].common.None? && x !in adrift
    {
    }

    lemma CommonNow()
      requires ValidBut(-1)
      ensures CommonOk(evs, common)
    {
    }

    lemma QueuesNow()
      requires Queues()
      ensures ActiveOk(evs, active) && LaterOk(evs, laterQ) && HeapOk(evs, heap + adrift) && CommonOk(evs, common)
      ensures FlagsOk(evs) && CtlOk(evs, ctl)
    {
    }

    // Everything that depends on the counters and on which events there are.
    lemma {:induction false} Recount(e: nat, ev: Event)
      requires Below(evs, limit) && e in evs && count == TotalWeight(evs, limit)
      ensures count - Weight(evs[e]) + Weight(ev) == TotalWeight(evs[e := ev], limit)
      ensures Below(evs[e := ev], limit)
    {
      WeightUpdate(evs, e, ev, limit);
    }

    /** event_queue_insert_inserted, with the fd list of evmap_io_add_ */
    method InsertInserted(e: nat)
      requires Queues() && e in evs && evs[e].io && !evs[e].inserted && !evs[e].finalizing
      modifies this`evs, this`count, this`fds
      ensures Queues() && evs == old(evs)[e := old(evs)[e].(inserted := true)]
    {
      hide Below; hide ActiveOk; hide LaterOk; hide HeapOk; hide CommonOk; hide CtlOk; hide TotalWeight;
      var ev := evs[e].(inserted := true);
      Recount(e, ev);
      KeepActive(evs, e, ev, active);
      KeepLater(evs, e, ev, laterQ);
      KeepTimeouts(evs, e, ev, heap + adrift, common);
      KeepFlags(evs, e, ev);
      KeepCtl(evs, e, ev, ctl);
      if !ev.internal {
        count := count + 1;
      }
      if ev.fd >= 0 {
        fds := fds + {e};
      }
      evs := evs[e := ev];
    }

    /** event_queue_remove_inserted, with evmap_io_del_ */
    method RemoveInserted(e: nat)
      requires Queues() && e in evs && evs[e].inserted
      modifies this`evs, this`count, this`fds
      ensures Queues() && evs == old(evs)[e := old(evs)[e].(inserted := false)]
    {
      hide Below; hide ActiveOk; hide LaterOk; hide HeapOk; hide CommonOk; hide CtlOk; hide TotalWeight;
      var ev := evs[e].(inserted := false);
      Recount(e, ev);
      KeepActive(evs, e, ev, active);
      KeepLater(evs, e, ev, laterQ);
      KeepTimeouts(evs, e, ev, heap + adrift, common);
      KeepFlags(evs, e, ev);
      KeepCtl(evs, e, ev, ctl);
      if !ev.internal {
        count := count - 1;
      }
      fds := fds - {e};
      evs := evs[e := ev];
    }

    /** event_queue_insert_active */
    method InsertActive(e: nat)
      requires Queues() && e in evs && !evs[e].active && !evs[e].later
      modifies this`evs, this`count, this`active, this`countActive
      ensures Queues() && evs == old(evs)[e := old(evs)[e].(active := true)]
      ensures countActive == old(countActive) + 1 && old(evs)[e].pri < |old(active)|
      ensures active == old(active)[old(evs)[e].pri := old(active)[old(evs)[e].pri] + [e]]
    {
      hide Below; hide ActiveOk; hide LaterOk; hide HeapOk; hide CommonOk; hide CtlOk; hide FdOk; hide TotalWeight;
      hide Lengths;
      var ev := evs[e].(active := true);
      assert ev == evs[e].(active := true, later := false);
      PriorityOk(evs, e, active);
      Recount(e, ev);
      ActivePut(evs, e, active);
      LengthsUpdate(active, ev.pri, active[ev.pri] + [e]);
      KeepLater(evs, e, ev, laterQ);
      KeepTimeouts(evs, e, ev, heap + adrift, common);
      KeepFds(evs, e, ev, fds);
      KeepFlags(evs, e, ev);
      KeepCtl(evs, e, ev, ctl);
      if !ev.internal {
        count := count + 1;
      }
      countActive := countActive + 1;
      active := active[ev.pri := active[ev.pri] + [e]];
      evs := evs[e := ev];
    }

    /** event_queue_remove_active */
    method RemoveActive(e: nat)
      requires Queues() && e in evs && evs[e].active
      modifies this`evs, this`count, this`active, this`countActive
      ensures Queues() && evs == old(evs)[e := old(evs)[e].(active := false)]
      ensures old(evs)[e].pri < |old(active)| && e in old(active)[old(evs)[e].pri]
      ensures active == old(active)[old(evs)[e].pri := Without(old(active)[old(evs)[e].pri], e)]
    {
      hide Below; hide ActiveOk; hide LaterOk; hide HeapOk; hide CommonOk; hide CtlOk; hide FdOk; hide TotalWeight;
      hide Lengths;
      var ev := evs[e].(active := false);
      PriorityOk(evs, e, active);
      Recount(e, ev);
      ActiveDrop(evs, e, active);
      LengthsUpdate(active, ev.pri, Without(active[ev.pri], e));
      KeepLater(evs, e, ev, laterQ);
      KeepTimeouts(evs, e, ev, heap + adrift, common);
      KeepFds(evs, e, ev, fds);
      KeepFlags(evs, e, ev);
      KeepCtl(evs, e, ev, ctl);
      if !ev.internal {
        count := count - 1;
      }
      countActive := countActive - 1;
      active := active[ev.pri := Without(active[ev.pri], e)];
      evs := evs[e := ev];
    }

    /** event_queue_insert_active_later */
    method InsertLater(e: nat)
      requires Queues() && e in evs && !evs[e].active && !evs[e].later && e !in ctl
      modifies this`evs, this`count, this`laterQ, this`countActive
      ensures Queues() && evs == old(evs)[e := old(evs)[e].(later := true)]
      ensures laterQ == old(laterQ) + [e]
    {
      hide Below; hide ActiveOk; hide LaterOk; hide HeapOk; hide CommonOk; hide CtlOk; hide FdOk; hide TotalWeight;
      var ev := evs[e].(later := true);
      Recount(e, ev);
      KeepActive(evs, e, ev, active);
      LaterPut(evs, e, laterQ);
      KeepTimeouts(evs, e, ev, heap + adrift, common);
      KeepFds(evs, e, ev, fds);
      KeepFlags(evs, e, ev);
      KeepCtl(evs, e, ev, ctl);
      if !ev.internal {
        count := count + 1;
      }
      countActive := countActive + 1;
      laterQ := laterQ + [e];
      evs := evs[e := ev];
    }

    /** event_queue_remove_active_later */
    method RemoveLater(e: nat)
      requires Queues() && e in evs && evs[e].later
      modifies this`evs, this`count, this`laterQ, this`countActive
      ensures Queues() && evs == old(evs)[e := old(evs)[e].(later := false)]
      ensures e in old(laterQ) && laterQ == Without(old(laterQ), e) && countActive == old(countActive) - 1
    {
      hide Below; hide ActiveOk; hide LaterOk; hide HeapOk; hide CommonOk; hide CtlOk; hide FdOk; hide TotalWeight;
      var ev := evs[e].(later := false);
      Recount(e, ev);
      KeepActive(evs, e, ev, active);
      LaterDrop(evs, e, laterQ);
      KeepTimeouts(evs, e, ev, heap + adrift, common);
      KeepFds(evs, e, ev, fds);
      KeepFlags(evs, e, ev);
      KeepCtl(evs, e, ev, ctl);
      if !ev.internal {
        count := count - 1;
      }
      countActive := countActive - 1;
      laterQ := Without(laterQ, e);
      evs := evs[e := ev];
    }

    /** event_queue_remove_timeout */
    method RemoveTimeout(e: nat)
      requires Queues() && e in evs && evs[e].timeout && e !in adrift
      modifies this`evs, this`count, this`heap, this`common
      ensures Queues() && evs == old(evs)[e := old(evs)[e].(timeout := false)]
      ensures heap == old(heap) - {e} && common == DropCommon(old(common), old(evs)[e], e)
    {
      hide Below; hide ActiveOk; hide LaterOk; hide HeapOk; hide CommonOk; hide CtlOk; hide FdOk; hide TotalWeight;
      var ev := evs[e].(timeout := false);
      Recount(e, ev);
      KeepActive(evs, e, ev, active);
      KeepLater(evs, e, ev, laterQ);
      TimeoutDrop(evs, e, heap + adrift, common);
      KeepFds(evs, e, ev, fds);
      KeepFlags(evs, e, ev);
      KeepCtl(evs, e, ev, ctl);
      if !ev.internal {
        count := count - 1;
      }
      if ev.common.Some? {
        NotInHeap(evs, heap + adrift, e);
        assert heap - {e} == heap;
        common := common[ev.common.value := Without(common[ev.common.value], e)];
      } else {
        assert heap + adrift - {e} == (heap - {e}) + adrift;
        heap := heap - {e};
      }
      evs := evs[e := ev];
    }

    /**
      event_queue_insert_timeout of an ordinary deadline. Nobody looks at the result of
      min_heap_push_: without room the event has its flag and is not in the heap.
    */
    method InsertHeap(e: nat, deadline: int, room: bool)
      requires Queues() && e in evs && !evs[e].timeout && !evs[e].finalizing && (e in ctl ==> room)
      modifies this`evs, this`count, this`heap, this`adrift
      ensures Queues() && evs == old(evs)[e := old(evs)[e].(timeout := true, deadline := deadline, common := None)]
      ensures heap == (if room then old(heap) + {e} else old(heap))
      ensures adrift == (if room then old(adrift) else old(adrift) + {e})
    {
      hide Below; hide ActiveOk; hide LaterOk; hide HeapOk; hide CommonOk; hide CtlOk; hide FdOk; hide TotalWeight;
      var ev := evs[e].(timeout := true, deadline := deadline, common := None);
      Recount(e, ev);
      KeepActive(evs, e, ev, active);
      KeepLater(evs, e, ev, laterQ);
      HeapPut(evs, e, heap + adrift, common, deadline);
      HeapMember(evs, heap + adrift, e);
      KeepFds(evs, e, ev, fds);
      FlagsNow(evs, e);
      KeepFlags(evs, e, ev);
      KeepCtl(evs, e, ev, ctl);
      if !ev.internal {
        count := count + 1;
      }
      if room {
        assert heap + {e} + adrift == heap + adrift + {e};
        heap := heap + {e};
      } else {
        assert heap + (adrift + {e}) == heap + adrift + {e};
        adrift := adrift + {e};
      }
      evs := evs[e := ev];
    }

    // insert_common_timeout_inorder: search from the end for the place.
    method PlaceInOrder(q: seq<nat>, deadline: int) returns (i: nat)
      requires forall x | x in q :: x in evs
      ensures i <= |q|
      ensures i > 0 ==> q[i - 1] in evs && evs[q[i - 1]].deadline <= deadline
      ensures i < |q| ==> q[i] in evs && deadline < evs[q[i]].deadline
    {
      i := |q|;
      while i > 0 && deadline < evs[q[i - 1]].deadline
        invariant i <= |q|
        invariant i < |q| ==> deadline < evs[q[i]].deadline
      {
        i := i - 1;
      }
    }

    /** event_queue_insert_timeout of a common timeout */
    method InsertCommon(e: nat, k: nat, deadline: int)
      requires Queues() && e in evs && !evs[e].timeout && !evs[e].finalizing && k < |common| && e !in ctl
      modifies this`evs, this`count, this`common
      ensures Queues() && evs == old(evs)[e := old(evs)[e].(timeout := true, deadline := deadline, common := Some(k))]
      ensures |common| == |old(common)| && (forall l | 0 <= l < |common| && l != k :: common[l] == old(common)[l])
      ensures |common[k]| > 0 && (common[k][0] == e || (|old(common)[k]| > 0 && common[k][0] == old(common)[k][0]))
      ensures forall x :: x in common[k] <==> x in old(common)[k] || x == e
      ensures common[k][0] == e <==> Earliest(old(evs), old(common)[k], e, deadline)
    {
      hide EventBase.Queues; hide ActiveOk; hide LaterOk; hide HeapOk; hide CommonOk; hide FlagsOk; hide CtlOk;
      hide InsertAt; hide Earliest;
      QueuesNow();
      CommonMembers(evs, common, k);
      var q := common[k];
      var i := PlaceInOrder(q, deadline);
      InsertAtProps(q, i, e);
      FirstPlace(evs, common, k, i, e, deadline);
      InsertPlace(e, k, deadline, i);
    }

    method InsertPlace(e: nat, k: nat, deadline: int, i: nat)
      requires Queues() && e in evs && !evs[e].timeout && !evs[e].finalizing && k < |common| && e !in ctl
      requires i <= |common[k]|
      requires i > 0 ==> common[k][i - 1] in evs && evs[common[k][i - 1]].deadline <= deadline
      requires i < |common[k]| ==> common[k][i] in evs && deadline < evs[common[k][i]].deadline
      modifies this`evs, this`count, this`common
      ensures Queues() && evs == old(evs)[e := old(evs)[e].(timeout := true, deadline := deadline, common := Some(k))]
      ensures common == old(common)[k := InsertAt(old(common)[k], i, e)]
    {
      hide Below; hide ActiveOk; hide LaterOk; hide HeapOk; hide CommonOk; hide CtlOk; hide FdOk; hide InsertAt;
      hide TotalWeight;
      var q := common[k];
      var ev := evs[e].(timeout := true, deadline := deadline, common := Some(k));
      Recount(e, ev);
      KeepActive(evs, e, ev, active);
      KeepLater(evs, e, ev, laterQ);
      CommonPut(evs, e, heap + adrift, common, k, deadline, i);
      KeepFds(evs, e, ev, fds);
      FlagsNow(evs, e);
      KeepFlags(evs, e, ev);
      KeepCtl(evs, e, ev, ctl);
      if !ev.internal {
        count := count + 1;
      }
      common := common[k := InsertAt(q, i, e)];
      evs := evs[e := ev];
    }

    // ev_res is noted; no queue changes.
    method SetTimedOut(e: nat, t: bool)
      requires Queues() && e in evs
      modifies this`evs
      ensures Queues() && evs == old(evs)[e := old(evs)[e].(timedOut := t)]
    {
      hide Below; hide ActiveOk; hide LaterOk; hide HeapOk; hide CommonOk; hide CtlOk; hide FdOk; hide TotalWeight;
      var ev := evs[e].(timedOut := t);
      Recount(e, ev);
      KeepActive(evs, e, ev, active);
      KeepLater(evs, e, ev, laterQ);
      KeepTimeouts(evs, e, ev, heap + adrift, common);
      KeepFds(evs, e, ev, fds);
      FlagsNow(evs, e);
      KeepFlags(evs, e, ev);
      KeepCtl(evs, e, ev, ctl);
      evs := evs[e := ev];
    }

    // EVLIST_FINALIZING and ev_io_timeout are set; no queue changes.
    method Annotate(e: nat, finalizing: bool, interval: Timeout)
      requires Queues() && e in evs && e !in ctl && (finalizing ==> !evs[e].timeout && !evs[e].inserted)
      modifies this`evs
      ensures Queues() && evs == old(evs)[e := old(evs)[e].(finalizing := finalizing, interval := interval)]
    {
      hide Below; hide ActiveOk; hide LaterOk; hide HeapOk; hide CommonOk; hide CtlOk; hide FdOk; hide TotalWeight;
      var ev := evs[e].(finalizing := finalizing, interval := interval);
      Recount(e, ev);
      KeepActive(evs, e, ev, active);
      KeepLater(evs, e, ev, laterQ);
      KeepTimeouts(evs, e, ev, heap + adrift, common);
      KeepFds(evs, e, ev, fds);
      FlagsNow(evs, e);
      KeepFlags(evs, e, ev);
      KeepCtl(evs, e, ev, ctl);
      evs := evs[e := ev];
    }

    lemma QueueFacts(e: nat)
      requires Queues() && e in evs
      ensures !(evs[e].active && evs[e].later) && (evs[e].inserted ==> evs[e].io)
      ensures evs[e].finalizing ==> !evs[e].timeout && !evs[e].inserted
      ensures e in heap <==> evs[e].timeout && evs[e].common.None? && e !in adrift
      ensures e in adrift ==> evs[e].timeout && evs[e].common.None? && e !in ctl
      ensures !evs[e].timeout ==> heap - {e} == heap
    {
      FlagsNow(evs, e);
      HeapMember(evs, heap + adrift, e);
    }

    // Leave the heap or the common queue, whichever it is, if any.
    method LeaveTimeouts(e: nat)
      requires Queues() && e in evs && e !in adrift
      modifies this`evs, this`count, this`heap, this`common
      ensures Queues() && evs == old(evs)[e := old(evs)[e].(timeout := false)]
      ensures heap == old(heap) - {e} && common == Left(old(common), old(evs)[e], e)
    {
      hide EventBase.Queues; hide DropCommon;
      QueueFacts(e);
      ghost var ev, evs0 := evs[e], evs;
      if evs[e].timeout {
        RemoveTimeout(e);
      }
      UpdateTwice(evs0, e, ev, ev);
    }

    // Leave the active or the active-later queue.
    method LeaveActiveQueues(e: nat)
      requires Queues() && e in evs
      modifies this`evs, this`count, this`countActive, this`active, this`laterQ
      ensures Queues() && evs == old(evs)[e := old(evs)[e].(active := false, later := false)]
    {
      hide EventBase.Queues;
      QueueFacts(e);
      ghost var ev, evs0 := evs[e], evs;
      if evs[e].active {
        RemoveActive(e);
      } else if evs[e].later {
        RemoveLater(e);
      }
      UpdateTwice(evs0, e, ev, ev);
    }

    /** event_del_nolock_; `force` is EVENT_DEL_EVEN_IF_FINALIZING, ioOk is what evmap_io_del_ says of an fd */
    method EventDel(e: nat, force: bool, ioOk: bool) returns (res: int)
      requires Queues() && e in evs && e !in adrift
      modifies this`evs, this`count, this`countActive, this`heap, this`common, this`active, this`laterQ, this`fds
      ensures Queues()
      ensures evs == if old(evs)[e].finalizing && !force then old(evs) else old(evs)[e := Idle(old(evs)[e])]
      ensures heap == old(heap) - {e} && common == Left(old(common), old(evs)[e], e)
      ensures res == if (old(evs)[e].finalizing && !force) || !old(evs)[e].inserted || old(evs)[e].fd < 0
                || ioOk then 0 else -1
    {
      hide EventBase.Queues; hide Left;
      QueueFacts(e);
      if evs[e].finalizing {
        LeftNone(common, evs[e], e);
      }
      res := 0;
      if !force && evs[e].finalizing {
        return;
      }
      // the lists forget the event whatever the backend says
      res := if !evs[e].inserted || evs[e].fd < 0 || ioOk then 0 else -1;
      hide Idle;
      LeaveAll(e);
    }

    method LeaveAll(e: nat)
      requires Queues() && e in evs && e !in adrift
      modifies this`evs, this`count, this`countActive, this`heap, this`common, this`active, this`laterQ, this`fds
      ensures Queues() && evs == old(evs)[e := Idle(old(evs)[e])]
      ensures heap == old(heap) - {e} && common == Left(old(common), old(evs)[e], e)
    {
      hide EventBase.Queues; hide Left;
      ghost var ev, evs0 := evs[e], evs;
      LeaveTimeouts(e);
      LeaveActiveQueues(e);
      UpdateTwice(evs0, e, ev.(timeout := false), ev.(timeout := false, active := false, later := false));
      if evs[e].inserted {
        RemoveInserted(e);
      }
      UpdateTwice(evs0, e, ev.(timeout := false, active := false, later := false), Idle(ev));
    }

    /** event_active_nolock_; `t` says that the reason is EV_TIMEOUT */
    method EventActive(e: nat, t: bool)
      requires Queues() && e in evs
      modifies this`evs, this`count, this`countActive, this`active, this`laterQ
      ensures Queues()
      ensures evs == if old(evs)[e].finalizing then old(evs) else old(evs)[e := Activated(old(evs)[e], t)]
      ensures !old(evs)[e].finalizing ==> e in evs && evs[e].active && !evs[e].later
      ensures var ev := old(evs)[e];
              !ev.finalizing ==> (evs[e].timedOut <==> t || (ev.timedOut && (ev.active || ev.later)))
      ensures old(evs)[e].finalizing || old(evs)[e].active ==> active == old(active) && laterQ == old(laterQ)
      ensures !old(evs)[e].finalizing && !old(evs)[e].active ==>
                var p := old(evs)[e].pri; p < |old(active)| && active == old(active)[p := old(active)[p] + [e]]
    {
      hide EventBase.Queues;
      QueueFacts(e);
      if evs[e].finalizing {
        return;
      }
      // the case of both flags, asserted never to happen
      assert !(evs[e].active && evs[e].later);
      if evs[e].active {
        SetTimedOut(e, evs[e].timedOut || t);
        return;
      }
      ActivateNow(e, (evs[e].later && evs[e].timedOut) || t);
    }

    // An event that is not active comes to the active queue, out of the active-later one if it is there.
    method ActivateNow(e: nat, res: bool)
      requires Queues() && e in evs && !evs[e].active
      modifies this`evs, this`count, this`countActive, this`active, this`laterQ
      ensures Queues()
      ensures evs == old(evs)[e := old(evs)[e].(timedOut := res, later := false, active := true)]
      ensures old(evs)[e].pri < |old(active)|
      ensures active == old(active)[old(evs)[e].pri := old(active)[old(evs)[e].pri] + [e]]
    {
      hide EventBase.Queues;
      ghost var ev, evs0 := evs[e], evs;
      SetTimedOut(e, res);
      if evs[e].later {
        RemoveLater(e);
      }
      UpdateTwice(evs0, e, ev.(timedOut := res), ev.(timedOut := res, later := false));
      assert evs == evs0[e := ev.(timedOut := res, later := false)];
      InsertActive(e);
      UpdateTwice(evs0, e, ev.(timedOut := res, later := false), ev.(timedOut := res, later := false, active := true));
    }

    /** event_active_later_nolock_ */
    method EventActiveLater(e: nat, t: bool)
      requires Queues() && e in evs && e !in ctl
      modifies this`evs, this`count, this`countActive, this`laterQ
      ensures Queues()
      ensures evs == old(evs)[e := Postponed(old(evs)[e], t)]
      ensures var ev := old(evs)[e];
              && evs[e].active == ev.active && evs[e].later == !ev.active
              && (evs[e].timedOut <==> t || (ev.timedOut && (ev.active || ev.later)))
      ensures laterQ == if old(evs)[e].active || old(evs)[e].later then old(laterQ) else old(laterQ) + [e]
    {
      hide EventBase.Queues;
      QueueFacts(e);
      if evs[e].active || evs[e].later {
        SetTimedOut(e, evs[e].timedOut || t);
        return;
      }
      ghost var ev, evs0 := evs[e], evs;
      SetTimedOut(e, t);
      InsertLater(e);
      UpdateTwice(evs0, e, ev.(timedOut := t), ev.(timedOut := t, later := true));
    }

    // Put e on a deadline of its own: the part of event_add_nolock_ that all timers share.
    method SetTimer(e: nat, deadline: int)
      requires Queues() && e in evs && !evs[e].finalizing && e !in adrift
      modifies this`evs, this`count, this`countActive, this`heap, this`common, this`active, this`adrift
      ensures Queues() && evs == old(evs)[e := Timed(old(evs)[e], deadline, None)]
      ensures heap == old(heap) + {e} && adrift == old(adrift)
      ensures common == Left(old(common), old(evs)[e], e)
    {
      hide EventBase.Queues; hide Left;
      ghost var ev, evs0 := evs[e], evs;
      Unqueue(e);
      ghost var mid := evs[e];
      InsertHeap(e, deadline, true);
      UpdateTwice(evs0, e, mid, Timed(ev, deadline, None));
    }

    // Leave the old timeout, and the active queue if that is why the event is there.
    method Unqueue(e: nat)
      requires Queues() && e in evs && e !in adrift
      modifies this`evs, this`count, this`countActive, this`heap, this`common, this`active
      ensures Queues()
      ensures var ev := old(evs)[e];
              evs == old(evs)[e := ev.(timeout := false, active := ev.active && !ev.timedOut)]
      ensures heap == old(heap) - {e}
      ensures common == Left(old(common), old(evs)[e], e)
    {
      hide EventBase.Queues; hide Left;
      ghost var ev, evs0 := evs[e], evs;
      LeaveTimeouts(e);
      if evs[e].active && evs[e].timedOut {
        RemoveActive(e);
      }
      UpdateTwice(evs0, e, ev.(timeout := false), ev.(timeout := false, active := ev.active && !ev.timedOut));
    }

    // An internal event that is neither in the heap nor active needs a place in the heap.
    predicate CanSchedule(k: nat, memory: bool)
      reads this
    {
      k < |ctl| && ctl[k] in evs && (evs[ctl[k]].timeout || memory)
    }

    predicate Awake(k: nat)
      reads this
    {
      k < |ctl| && ctl[k] in evs && evs[ctl[k]].active
    }

    /**
      common_timeout_schedule: the internal event of queue k waits for its head. Nobody looks
      at the result of its event_add: without memory for a place in the heap nothing happens,
      and the queue is lost exactly if its internal event is not active either.
    */
    method Schedule(k: nat, memory: bool)
      requires k < |common| && |common[k]| > 0 && ValidBut(k)
      modifies this`evs, this`count, this`countActive, this`heap, this`common, this`active, this`lost, this`adrift
      ensures Valid() && common == old(common) && adrift == old(adrift)
      ensures old(common)[k][0] in old(evs) && k < |ctl| && ctl[k] in old(evs)
      ensures lost == if old(CanSchedule(k, memory)) || old(Awake(k)) then old(lost) - {k} else old(lost) + {k}
      ensures old(CanSchedule(k, memory)) ==>
                && evs == old(evs)[ctl[k] := Timed(old(evs)[ctl[k]], old(evs)[old(common)[k][0]].deadline, None)]
                && heap == old(heap) + {ctl[k]}
      ensures !old(CanSchedule(k, memory)) ==> evs == old(evs) && heap == old(heap)
    {
      ScheduleFacts(k);
      hide EventBase.Queues; hide Served; hide CommonOk; hide CtlOk; hide Rearmable; hide Timed;
      if !evs[ctl[k]].timeout && !memory {
        StillServed(evs, common, ctl, lost, k);
        lost := if evs[ctl[k]].active then lost - {k} else lost + {k};
        return;
      }
      ScheduleNow(k);
    }

    // The internal event gets the deadline of the head.
    method ScheduleNow(k: nat)
      requires k < |common| && |common[k]| > 0 && ValidBut(k)
      modifies this`evs, this`count, this`countActive, this`heap, this`common, this`active, this`lost, this`adrift
      ensures Valid() && common == old(common) && lost == old(lost) - {k} && adrift == old(adrift)
      ensures old(common)[k][0] in old(evs) && k < |ctl| && ctl[k] in old(evs)
      ensures evs == old(evs)[ctl[k] := Timed(old(evs)[ctl[k]], old(evs)[old(common)[k][0]].deadline, None)]
      ensures heap == old(heap) + {ctl[k]}
    {
      hide EventBase.ValidBut; hide EventBase.Queues; hide Left; hide Served; hide CommonOk; hide CtlOk; hide Rearmable;
      hide Timed;
      ScheduleFacts(k);
      Parts(k);
      var head, c := common[k][0], ctl[k];
      ghost var evs0, common0 := evs, common;
      SetTimer(c, evs[head].deadline);
      LeftNone(common0, evs0[c], c);
      ServedNow(evs0, common, ctl, lost, k, evs);
      Forget(k);
    }

    // Queue k is not lost any more.
    ghost method Forget(k: nat)
      requires Queues() && Served(evs, common, ctl, lost - {k}, -1) && Rearmable(evs, |common|) && |durations| == |ctl|
      modifies this`lost
      ensures Valid() && lost == old(lost) - {k}
    {
      hide ActiveOk; hide LaterOk; hide HeapOk; hide CommonOk; hide FdOk; hide FlagsOk; hide CtlOk; hide TotalWeight;
      hide Lengths; hide Served; hide Rearmable;
      lost := lost - {k};
    }

    lemma Parts(k: int)
      requires ValidBut(k)
      ensures Queues() && Served(evs, common, ctl, lost, k) && Rearmable(evs, |common|) && |durations| == |ctl|
    {
    }

    lemma ScheduleFacts(k: nat)
      requires k < |common| && |common[k]| > 0 && ValidBut(k)
      ensures k < |ctl| && common[k][0] in evs && ctl[k] in evs && CtlOk(evs, ctl) && CommonOk(evs, common)
      ensures var c := evs[ctl[k]]; !c.finalizing && !c.persist && (c.timeout ==> c.common.None?)
      ensures ctl[k] in ctl && ctl[k] !in adrift
    {
      CommonMembers(evs, common, k);
      assert common[k][0] in common[k];
    }
  }

  // Every event of the queue but e itself has a later deadline.
  ghost predicate Earliest(evs: Events, q: seq<nat>, e: nat, deadline: int) {
    forall x | x in q && x in evs && x != e :: deadline < evs[x].deadline
  }

  // The place that the search finds is the first one for the earliest deadline only.
  lemma {:induction false} FirstPlace(evs: Events, common: seq<seq<nat>>, k: nat, i: nat, e: nat, deadline: int)
    requires CommonOk(evs, common) && k < |common| && i <= |common[k]| && e in evs && !evs[e].timeout
    requires i > 0 ==> common[k][i - 1] in evs && evs[common[k][i - 1]].deadline <= deadline
    requires i < |common[k]| ==> common[k][i] in evs && deadline < evs[common[k][i]].deadline
    ensures i == 0 <==> Earliest(evs, common[k], e, deadline)
    ensures e !in common[k]
  {
    CommonMembers(evs, common, k);
    if i > 0 {
      assert common[k][i - 1] in common[k];
    } else {
      forall x | x in common[k] && x in evs ensures deadline < evs[x].deadline {
        var j :| 0 <= j < |common[k]| && common[k][j] == x;
        assert Sorted(evs, common[k]);
        assert evs[common[k][0]].deadline <= evs[common[k][j]].deadline;
      }
    }
  }

  // The event with a new deadline.
  function Timed(ev: Event, deadline: int, common: Option<nat>): Event {
    ev.(timeout := true, deadline := deadline, common := common, active := ev.active && !ev.timedOut)
  }

  // The members of a common queue are not internal events of such queues.
  lemma CtlNotQueued(evs: Events, ctl: seq<nat>, common: seq<seq<nat>>, k: nat, x: nat)
    requires CtlOk(evs, ctl) && CommonOk(evs, common) && k < |common| && x in common[k]
    ensures x !in ctl
  {
  }

  // Scheduled for its head's deadline, the internal event serves its queue again.
  lemma ServedNow(evs: Events, common: seq<seq<nat>>, ctl: seq<nat>, lost: set<nat>, k: nat, evs': Events)
    requires Served(evs, common, ctl, lost, k) && k < |common| && |common[k]| > 0 && CtlOk(evs, ctl)
              && CommonOk(evs, common)
    requires evs' == evs[ctl[k] := Timed(evs[ctl[k]], evs[common[k][0]].deadline, None)]
    ensures Served(evs', common, ctl, lost - {k}, -1)
    ensures Rearmable(evs, |common|) ==> Rearmable(evs', |common|)
  {
    forall l: nat | l < |ctl| && l in lost - {k} ensures Asleep(evs', ctl[l]) {
      assert ctl[l] != ctl[k];
    }
    forall l: nat | l < |common| && l !in lost - {k} && |common[l]| > 0 ensures Serves(evs', ctl[l], common[l][0]) {
      CommonMembers(evs, common, l);
      CtlNotQueued(evs, ctl, common, l, common[l][0]);
      if l != k {
        assert Serves(evs, ctl[l], common[l][0]);
        assert ctl[l] != ctl[k];
      }
    }
  }

  // Nothing is done: an active internal event still serves, an idle one does not.
  lemma StillServed(evs: Events, common: seq<seq<nat>>, ctl: seq<nat>, lost: set<nat>, k: nat)
    requires Served(evs, common, ctl, lost, k) && k < |common| && CtlOk(evs, ctl) && CommonOk(evs, common)
    ensures Asleep(evs, ctl[k]) ==> Served(evs, common, ctl, lost + {k}, -1)
    ensures ctl[k] in evs && evs[ctl[k]].active ==> Served(evs, common, ctl, lost - {k}, -1)
  {
    CommonMembers(evs, common, k);
    if |common[k]| > 0 {
      assert common[k][0] in common[k];
    }
  }

  lemma {:induction false} WithoutHead(q: seq<nat>, e: nat)
    requires e in q && |q| > 1
    ensures Without(q, e)[0] == if q[0] == e then q[1] else q[0]
  {
  }

  // An ordinary event leaves: heads only get later, internal events stay.
  lemma {:induction false} ServedDel(
    evs: Events, common: seq<seq<nat>>, ctl: seq<nat>, lost: set<nat>, k0: int, e: nat, ev: Event)
    requires CommonOk(evs, common) && CtlOk(evs, ctl) && Served(evs, common, ctl, lost, k0) && e in evs && e !in ctl
    requires evs[e].timeout
    ensures Served(evs[e := ev], DropCommon(common, evs[e], e), ctl, lost, k0)
  {
    var evs', common' := evs[e := ev], DropCommon(common, evs[e], e);
    forall l: nat | l < |common'| && l != k0 && l !in lost && |common'[l]| > 0
      ensures Serves(evs', ctl[l], common'[l][0])
    {
      assert ctl[l] in ctl;
      if evs[e].common == Some(l) {
        assert e in common[l];
        WithoutHead(common[l], e);
        WithoutProps(common[l], e);
        assert Serves(evs, ctl[l], common[l][0]);
        assert common'[l][0] in common'[l];
        if common[l][0] == e {
          assert common[l][1] in common[l];
          assert evs[common[l][0]].deadline <= evs[common[l][1]].deadline;
        }
      } else {
        assert common'[l] == common[l];
        assert Serves(evs, ctl[l], common[l][0]);
        assert common[l][0] in common[l];
      }
    }
  }

  // A change that leaves deadlines and queues alone, of an ordinary event or of an
  // internal one that is active afterwards.
  lemma {:induction false} ServedKeep(
    evs: Events, common: seq<seq<nat>>, ctl: seq<nat>, lost: set<nat>, k0: int, e: nat, ev: Event)
    requires CtlOk(evs, ctl) && Served(evs, common, ctl, lost, k0) && e in evs
    requires ev.deadline == evs[e].deadline && (e in ctl ==> ev.active && (evs[e].active || evs[e].timeout))
    ensures Served(evs[e := ev], common, ctl, lost, k0)
  {
    var evs' := evs[e := ev];
    forall l: nat | l < |common| && l != k0 && l !in lost && |common[l]| > 0
      ensures Serves(evs', ctl[l], common[l][0])
    {
      assert Serves(evs, ctl[l], common[l][0]);
      assert ctl[l] in ctl;
    }
  }

  lemma UpdateTwice(evs: Events, e: nat, a: Event, b: Event)
    ensures evs[e := a][e := b] == evs[e := b]
    ensures e in evs && evs[e] == b ==> evs[e := b] == evs
  {
  }

  // The common queues once e, with the fields ev, has left its queue.
  function DropCommon(common: seq<seq<nat>>, ev: Event, e: nat): (r: seq<seq<nat>>)
    ensures |r| == |common|
  {
    if ev.common.Some? && ev.common.value < |common| && e in common[ev.common.value] then
      common[ev.common.value := Without(common[ev.common.value], e)]
    else common
  }

  // The same for an event with or without a timeout.
  function Left(common: seq<seq<nat>>, ev: Event, e: nat): (r: seq<seq<nat>>)
    ensures |r| == |common|
  {
    if ev.timeout then DropCommon(common, ev, e) else common
  }

  lemma LeftNone(common: seq<seq<nat>>, ev: Event, e: nat)
    requires ev.timeout ==> ev.common.None?
    ensures Left(common, ev, e) == common
  {
  }

  lemma DropNone(common: seq<seq<nat>>, ev: Event, e: nat)
    requires ev.common.None?
    ensures DropCommon(common, ev, e) == common
  {
  }

  lemma NotInHeap(evs: Events, heap: set<nat>, e: nat)
    requires HeapOk(evs, heap) && e in evs && evs[e].common.Some?
    ensures heap - {e} == heap
  {
  }

  lemma HeapMember(evs: Events, heap: set<nat>, e: nat)
    requires HeapOk(evs, heap) && e in evs
    ensures e in heap <==> evs[e].timeout && evs[e].common.None?
    ensures !evs[e].timeout ==> heap - {e} == heap
  {
  }

  lemma CommonMembers(evs: Events, common: seq<seq<nat>>, k: nat)
    requires CommonOk(evs, common) && k < |common|
    ensures forall x | x in common[k] :: x in evs && evs[x].timeout && evs[x].common == Some(k)
  {
  }

  lemma FlagsNow(evs: Events, e: nat)
    requires FlagsOk(evs) && e in evs
    ensures !(evs[e].active && evs[e].later) && (evs[e].inserted ==> evs[e].io)
    ensures evs[e].finalizing ==> !evs[e].timeout && !evs[e].inserted
  {
  }

  lemma KeepCtl(evs: Events, e: nat, ev: Event, ctl: seq<nat>)
    requires CtlOk(evs, ctl) && e in evs
    requires ev.internal == evs[e].internal && ev.io == evs[e].io && ev.persist == evs[e].persist
    requires e in ctl ==> (ev.finalizing ==> evs[e].finalizing) && (ev.later ==> evs[e].later)
    requires e in ctl && ev.timeout ==> ev.common.None? || (evs[e].timeout && ev.common == evs[e].common)
    ensures CtlOk(evs[e := ev], ctl)
  {
  }

  lemma PriorityOk(evs: Events, e: nat, active: seq<seq<nat>>)
    requires ActiveOk(evs, active) && e in evs
    ensures evs[e].pri < |active|
  {
  }
}
