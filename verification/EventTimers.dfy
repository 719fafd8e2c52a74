/**
  What users do to events of event.c: add, delete, activate and finalize them, with the
  common-timeout queues kept served all the while.
*/
module EventTimers {
  import opened Basics
  import opened Lists
  import opened EventQueues
  import opened EventLoop

  /** Everything outside the internal events of the common queues is as before, except e. */
  ghost predicate OnlyChanged(evs0: Events, evs: Events, ctl: seq<nat>, e: nat, ev: Event) {
    && evs.Keys == evs0.Keys
    && forall x | x in evs0 && x !in ctl :: evs[x] == if x == e then ev else evs0[x]
  }

  ghost predicate IsDue(ev: Event, now: int) {
    ev.timeout && ev.deadline <= now
  }

  // ------------------------------------------------------------------------
  // What keeps the common queues served

  // An ordinary event that is in no common queue joins queue k.
  lemma {:induction false} ServedPut(
    evs: Events, common: seq<seq<nat>>, common': seq<seq<nat>>, ctl: seq<nat>, lost: set<nat>, k: int, e: nat,
    ev: Event)
    requires CommonOk(evs, common) && CtlOk(evs, ctl) && Served(evs, common, ctl, lost, -1)
    requires e in evs && e !in ctl && !evs[e].timeout
    requires |common'| == |common| && forall l | 0 <= l < |common| && l != k :: common'[l] == common[l]
    ensures Served(evs[e := ev], common', ctl, lost, k)
    ensures 0 <= k < |common| && |common[k]| > 0 && |common'[k]| > 0 && common'[k][0] == common[k][0] ==>
              Served(evs[e := ev], common', ctl, lost, -1)
  {
    var evs' := evs[e := ev];
    forall l: nat | l < |common| && l !in lost && |common[l]| > 0 ensures Serves(evs', ctl[l], common[l][0]) {
      assert common[l][0] in common[l];
      assert ctl[l] in ctl;
      assert Serves(evs, ctl[l], common[l][0]);
    }
  }

  lemma RearmKeep(evs: Events, n: nat, e: nat, ev: Event)
    requires Rearmable(evs, n) && (Repeats(ev) ==> Consistent(ev, n))
    ensures Rearmable(evs[e := ev], n)
  {
  }

  lemma RearmNow(evs: Events, n: nat, e: nat)
    requires Rearmable(evs, n) && e in evs
    ensures Repeats(evs[e]) ==> Consistent(evs[e], n)
  {
  }

  // An ordinary event leaves whatever it was in, or only its timeout.
  lemma {:induction false} ServedLeave(
    evs: Events, common: seq<seq<nat>>, ctl: seq<nat>, lost: set<nat>, e: nat, ev: Event)
    requires CommonOk(evs, common) && CtlOk(evs, ctl) && Served(evs, common, ctl, lost, -1) && e in evs && e !in ctl
    requires ev.deadline == evs[e].deadline
    ensures Served(evs[e := ev], Left(common, evs[e], e), ctl, lost, -1)
  {
    if evs[e].timeout {
      ServedDel(evs, common, ctl, lost, -1, e, ev);
    } else {
      ServedKeep(evs, common, ctl, lost, -1, e, ev);
    }
  }

  // ------------------------------------------------------------------------
  // What users call

  /** event_del */
  method Delete(b: EventBase, e: nat, ioOk: bool) returns (res: int)
    requires b.Valid() && e in b.evs && e !in b.ctl && e !in b.adrift
    modifies b
    ensures b.Valid() && b.ctl == old(b.ctl) && b.lost == old(b.lost) && b.adrift == old(b.adrift)
              && |b.common| == |old(b.common)|
    ensures b.evs == if old(b.evs)[e].finalizing then old(b.evs) else old(b.evs)[e := Idle(old(b.evs)[e])]
    ensures res == if old(b.evs)[e].finalizing || !old(b.evs)[e].inserted || old(b.evs)[e].fd < 0 || ioOk then 0 else -1
  {
    hide EventBase.Queues; hide Served; hide CommonOk; hide CtlOk; hide Rearmable; hide DropCommon; hide HeapOk;
    hide FlagsOk; hide ActiveOk; hide LaterOk;
    b.QueuesNow();
    b.QueueFacts(e);
    RearmNow(b.evs, |b.common|, e);
    ghost var ev, evs0 := b.evs[e], b.evs;
    res := b.EventDel(e, false, ioOk);
    if !ev.finalizing {
      ServedLeave(evs0, old(b.common), b.ctl, b.lost, e, Idle(ev));
      RearmKeep(evs0, |b.common|, e, Idle(ev));
    }
  }

  /** event_active */
  method Activate(b: EventBase, e: nat, t: bool)
    requires b.Valid() && e in b.evs && e !in b.ctl
    modifies b
    ensures b.Valid() && b.ctl == old(b.ctl) && b.lost == old(b.lost) && b.adrift == old(b.adrift)
              && b.common == old(b.common) && b.heap == old(b.heap)
    ensures b.evs == if old(b.evs)[e].finalizing then old(b.evs) else old(b.evs)[e := Activated(old(b.evs)[e], t)]
    ensures !old(b.evs)[e].finalizing && !old(b.evs)[e].active ==>
              var p := old(b.evs)[e].pri; p < |old(b.active)| && b.active == old(b.active)[p := old(b.active)[p] + [e]]
    ensures old(b.evs)[e].finalizing || old(b.evs)[e].active ==> b.active == old(b.active)
  {
    hide EventBase.Queues; hide Served; hide CommonOk; hide CtlOk; hide Rearmable; hide HeapOk; hide FlagsOk;
    hide ActiveOk; hide LaterOk;
    b.QueuesNow();
    RearmNow(b.evs, |b.common|, e);
    ghost var ev, evs0 := b.evs[e], b.evs;
    b.EventActive(e, t);
    if !ev.finalizing {
      ServedKeep(evs0, b.common, b.ctl, b.lost, -1, e, Activated(ev, t));
      RearmKeep(evs0, |b.common|, e, Activated(ev, t));
    }
  }

  /** event_active_later_ */
  method ActivateLater(b: EventBase, e: nat, t: bool)
    requires b.Valid() && e in b.evs && e !in b.ctl
    modifies b
    ensures b.Valid() && b.ctl == old(b.ctl) && b.lost == old(b.lost) && b.adrift == old(b.adrift)
              && b.common == old(b.common) && b.heap == old(b.heap)
    ensures b.evs == old(b.evs)[e := Postponed(old(b.evs)[e], t)]
    ensures b.laterQ == if old(b.evs)[e].active || old(b.evs)[e].later then old(b.laterQ) else old(b.laterQ) + [e]
  {
    hide EventBase.Queues; hide Served; hide CommonOk; hide CtlOk; hide Rearmable; hide HeapOk; hide FlagsOk;
    hide ActiveOk; hide LaterOk;
    b.QueuesNow();
    RearmNow(b.evs, |b.common|, e);
    ghost var ev, evs0 := b.evs[e], b.evs;
    b.EventActiveLater(e, t);
    ServedKeep(evs0, b.common, b.ctl, b.lost, -1, e, Postponed(ev, t));
    RearmKeep(evs0, |b.common|, e, Postponed(ev, t));
  }

  /** event_finalize_nolock_: off every list, once more into the active queue, then never again */
  method Finalize(b: EventBase, e: nat, ioOk: bool)
    requires b.Valid() && e in b.evs && e !in b.ctl && e !in b.adrift
    modifies b
    ensures b.Valid() && b.ctl == old(b.ctl) && b.lost == old(b.lost) && b.adrift == old(b.adrift)
              && |b.common| == |old(b.common)|
    ensures var ev := old(b.evs)[e];
            b.evs == if ev.finalizing then old(b.evs)
                     else old(b.evs)[e := Idle(ev).(active := true, timedOut := false, finalizing := true)]
  {
    hide EventBase.ValidBut;
    if b.evs[e].finalizing {
      b.FinalizingNow(e);
    }
    ghost var ev, evs0 := b.evs[e], b.evs;
    var res := Delete(b, e, ioOk);
    ghost var evs1 := b.evs;
    Activate(b, e, false);
    ghost var ev' := Idle(ev).(active := true, timedOut := false);
    if !ev.finalizing {
      assert b.evs == evs1[e := ev'];
      UpdateTwice(evs0, e, Idle(ev), ev');
    }
    MarkFinalizing(b, e);
    UpdateTwice(evs0, e, ev', ev'.(finalizing := true));
    UpdateTwice(evs0, e, ev, ev);
  }

  method MarkFinalizing(b: EventBase, e: nat)
    requires b.Valid() && e in b.evs && e !in b.ctl && !b.evs[e].timeout && !b.evs[e].inserted
    modifies b
    ensures b.Valid() && b.ctl == old(b.ctl) && b.lost == old(b.lost) && b.adrift == old(b.adrift)
              && b.common == old(b.common)
    ensures b.evs == old(b.evs)[e := old(b.evs)[e].(finalizing := true)]
  {
    hide EventBase.Queues; hide Served; hide CommonOk; hide CtlOk; hide Rearmable; hide HeapOk; hide FlagsOk;
    hide ActiveOk; hide LaterOk;
    b.QueuesNow();
    ghost var ev, evs0 := b.evs[e], b.evs;
    b.Annotate(e, true, b.evs[e].interval);
    ServedKeep(evs0, b.common, b.ctl, b.lost, -1, e, ev.(finalizing := true));
    RearmKeep(evs0, |b.common|, e, ev.(finalizing := true));
  }

  /** event_remove_timer_nolock_ */
  method RemoveTimer(b: EventBase, e: nat)
    requires b.Valid() && e in b.evs && e !in b.ctl && e !in b.adrift
    modifies b
    ensures b.Valid() && b.ctl == old(b.ctl) && b.lost == old(b.lost) && b.adrift == old(b.adrift)
              && |b.common| == |old(b.common)|
    ensures var ev := old(b.evs)[e];
            b.evs == if ev.timeout then old(b.evs)[e := ev.(timeout := false, interval := Timeout(0, None))]
                else old(b.evs)
  {
    hide EventBase.Queues; hide Served; hide CommonOk; hide CtlOk; hide Rearmable; hide HeapOk; hide FlagsOk;
    hide ActiveOk; hide LaterOk; hide DropCommon;
    b.QueuesNow();
    b.QueueFacts(e);
    ghost var ev, evs0 := b.evs[e], b.evs;
    if b.evs[e].timeout {
      b.RemoveTimeout(e);
      b.Annotate(e, false, Timeout(0, None));
      ghost var ev' := ev.(timeout := false, interval := Timeout(0, None));
      UpdateTwice(evs0, e, ev.(timeout := false), ev');
      ServedLeave(evs0, old(b.common), b.ctl, b.lost, e, ev');
      RearmKeep(evs0, |b.common|, e, ev');
    }
  }

  // What event_add_nolock_ makes of an event.
  function Deadline(tv: Timeout, absolute: bool, now: int): int {
    if absolute then tv.time else now + tv.time
  }

  function Rearmed(ev: Event, tv: Timeout, absolute: bool, now: int): Event {
    Timed(ev, Deadline(tv, absolute, now), tv.common).(interval := if ev.persist && !absolute then tv else ev.interval)
  }

  predicate NeedsInsert(ev: Event) {
    ev.io && !ev.inserted && !ev.active && !ev.later
  }

  function Added(ev: Event, tv: Option<Timeout>, absolute: bool, now: int): Event {
    var ev1 := ev.(inserted := ev.inserted || NeedsInsert(ev));
    if tv.None? then ev1 else Rearmed(ev1, tv.value, absolute, now)
  }

  // What the timeout part of event_add_nolock_ begins with.
  function Unqueued(ev: Event): Event {
    ev.(timeout := false, active := ev.active && !ev.timedOut)
  }

  lemma TimedAfter(ev: Event, deadline: int, common: Option<nat>, interval: Timeout)
    ensures Unqueued(ev).(timeout := true, deadline := deadline, common := common, interval := interval)
              == Timed(ev, deadline, common).(interval := interval)
    ensures Unqueued(ev).finalizing == ev.finalizing && !Unqueued(ev).timeout
    ensures Repeats(Unqueued(ev).(interval := interval)) == Repeats(ev.(interval := interval))
  {
  }

  method LeaveQueues(b: EventBase, e: nat)
    requires b.Valid() && e in b.evs && e !in b.ctl && e !in b.adrift
    modifies b
    ensures b.Valid() && b.ctl == old(b.ctl) && b.lost == old(b.lost) && b.adrift == old(b.adrift)
    ensures b.evs == old(b.evs)[e := Unqueued(old(b.evs)[e])]
    ensures b.common == Left(old(b.common), old(b.evs)[e], e)
  {
    hide EventBase.Queues; hide Served; hide CommonOk; hide CtlOk; hide Rearmable; hide HeapOk; hide FlagsOk;
    hide ActiveOk; hide LaterOk; hide DropCommon;
    b.QueuesNow();
    ghost var ev, evs0 := b.evs[e], b.evs;
    RearmNow(evs0, |b.common|, e);
    b.Unqueue(e);
    ServedLeave(evs0, old(b.common), b.ctl, b.lost, e, Unqueued(ev));
    RearmKeep(evs0, |b.common|, e, Unqueued(ev));
  }

  // The timeout part of event_add_nolock_ for an ordinary deadline.
  method AddToHeap(b: EventBase, e: nat, deadline: int, interval: Timeout, room: bool)
    requires b.Valid() && e in b.evs && e !in b.ctl && !b.evs[e].finalizing
    requires e !in b.adrift
    requires Repeats(b.evs[e].(interval := interval)) ==> interval.common.None?
    modifies b
    ensures b.Valid() && b.ctl == old(b.ctl) && b.lost == old(b.lost) && |b.common| == |old(b.common)|
    ensures b.adrift == if room then old(b.adrift) else old(b.adrift) + {e}
    ensures b.evs == old(b.evs)[e := Timed(old(b.evs)[e], deadline, None).(interval := interval)]
  {
    hide EventBase.ValidBut; hide Left; hide Unqueued; hide Timed; hide Repeats;
    ghost var ev, evs0 := b.evs[e], b.evs;
    LeaveQueues(b, e);
    TimedAfter(ev, deadline, None, interval);
    JoinHeap(b, e, deadline, interval, room);
    UpdateTwice(evs0, e, Unqueued(ev), Timed(ev, deadline, None).(interval := interval));
  }

  method JoinHeap(b: EventBase, e: nat, deadline: int, interval: Timeout, room: bool)
    requires b.Valid() && e in b.evs && e !in b.ctl && !b.evs[e].finalizing && !b.evs[e].timeout
    requires Repeats(b.evs[e].(interval := interval)) ==> interval.common.None?
    modifies b
    ensures b.Valid() && b.ctl == old(b.ctl) && b.lost == old(b.lost) && b.common == old(b.common)
    ensures b.adrift == if room then old(b.adrift) else old(b.adrift) + {e}
    ensures b.evs
              == old(b.evs)[e := old(b.evs)[e].(timeout := true, deadline := deadline, common := None,
                  interval := interval)]
  {
    hide EventBase.Queues; hide Served; hide CommonOk; hide CtlOk; hide Rearmable; hide HeapOk; hide FlagsOk;
    hide ActiveOk; hide LaterOk; hide DropCommon;
    b.QueuesNow();
    ghost var ev, evs0 := b.evs[e], b.evs;
    b.InsertHeap(e, deadline, room);
    b.Annotate(e, false, interval);
    ghost var ev' := ev.(timeout := true, deadline := deadline, common := None, interval := interval);
    UpdateTwice(evs0, e, ev.(timeout := true, deadline := deadline, common := None), ev');
    ServedPut(evs0, b.common, b.common, b.ctl, b.lost, -1, e, ev');
    RearmKeep(evs0, |b.common|, e, ev');
  }

  // Whether e comes first does not depend on where e was before.
  lemma {:induction false} EarliestLeft(
    evs0: Events, evs1: Events, common: seq<seq<nat>>, k: nat, e: nat, deadline: int)
    requires CommonOk(evs0, common) && e in evs0 && evs1.Keys == evs0.Keys && k < |common|
              && (forall x | x in evs0 && x != e :: evs1[x] == evs0[x])
    ensures Earliest(evs1, Left(common, evs0[e], e)[k], e, deadline) <==> Earliest(evs0, common[k], e, deadline)
  {
    var l := evs0[e].common;
    if l == Some(k) && e in common[k] {
      WithoutProps(common[k], e);
    }
  }

  // The same for a common timeout, before the internal event is seen to.
  method JoinCommon(b: EventBase, e: nat, k: nat, deadline: int, interval: Timeout)
    requires b.Valid() && e in b.evs && e !in b.ctl && !b.evs[e].finalizing && k < |b.common|
    requires e !in b.adrift
    requires Repeats(b.evs[e].(interval := interval)) ==> interval.common == Some(k)
    modifies b
    ensures b.ValidBut(k) && b.ctl == old(b.ctl) && b.lost == old(b.lost) && b.adrift == old(b.adrift)
              && |b.common| == |old(b.common)| && |b.common[k]| > 0
    ensures b.common[k][0] != e ==> b.Valid()
    ensures b.common[k][0] == e <==> Earliest(old(b.evs), old(b.common)[k], e, deadline)
    ensures b.evs == old(b.evs)[e := Timed(old(b.evs)[e], deadline, Some(k)).(interval := interval)]
  {
    hide EventBase.ValidBut; hide Earliest; hide CommonOk; hide Unqueued; hide Timed; hide Repeats; hide Left;
    b.CommonNow();
    ghost var ev, evs0, common0 := b.evs[e], b.evs, b.common;
    LeaveQueues(b, e);
    TimedAfter(ev, deadline, Some(k), interval);
    EarliestLeft(evs0, b.evs, common0, k, e, deadline);
    EnterCommon(b, e, k, deadline, interval);
    UpdateTwice(evs0, e, Unqueued(ev), Timed(ev, deadline, Some(k)).(interval := interval));
  }

  method EnterCommon(b: EventBase, e: nat, k: nat, deadline: int, interval: Timeout)
    requires b.Valid() && e in b.evs && e !in b.ctl && !b.evs[e].finalizing && !b.evs[e].timeout && k < |b.common|
    requires Repeats(b.evs[e].(interval := interval)) ==> interval.common == Some(k)
    modifies b
    ensures b.ValidBut(k) && b.ctl == old(b.ctl) && b.lost == old(b.lost) && b.adrift == old(b.adrift)
              && |b.common| == |old(b.common)| && |b.common[k]| > 0
    ensures b.common[k][0] != e ==> b.Valid()
    ensures b.common[k][0] == e <==> Earliest(old(b.evs), old(b.common)[k], e, deadline)
    ensures b.evs
              == old(b.evs)[e := old(b.evs)[e].(timeout := true, deadline := deadline, common := Some(k),
                  interval := interval)]
  {
    hide EventBase.Queues; hide Served; hide CommonOk; hide CtlOk; hide Rearmable; hide HeapOk; hide FlagsOk;
    hide ActiveOk; hide LaterOk; hide DropCommon; hide Earliest;
    b.QueuesNow();
    ghost var ev, evs0, common0 := b.evs[e], b.evs, b.common;
    b.InsertCommon(e, k, deadline);
    b.Annotate(e, false, interval);
    ghost var ev' := ev.(timeout := true, deadline := deadline, common := Some(k), interval := interval);
    UpdateTwice(evs0, e, ev.(timeout := true, deadline := deadline, common := Some(k)), ev');
    ServedPut(evs0, common0, b.common, b.ctl, b.lost, k, e, ev');
    RearmKeep(evs0, |b.common|, e, ev');
  }

  // The queues that are lost after event e has joined queue k: this one, if e is its head
  // now and the internal event is idle and finds no place in the heap.
  ghost function LostAfter(
    evs: Events, common: seq<seq<nat>>, ctl: seq<nat>, lost: set<nat>, e: nat, k: nat, deadline: int,
    memory: bool): set<nat>
  {
    if k >= |common| || k >= |ctl| || !Earliest(evs, common[k], e, deadline) then lost
    else if !memory && Asleep(evs, ctl[k]) then lost + {k}
    else lost - {k}
  }

  lemma LostSame(
    evs0: Events, evs1: Events, common: seq<seq<nat>>, ctl: seq<nat>, lost: set<nat>, e: nat, k: nat, deadline: int,
    memory: bool, ev: Event)
    requires e in evs0 && e !in ctl && evs1 == evs0[e := ev]
    ensures LostAfter(evs1, common, ctl, lost, e, k, deadline, memory)
              == LostAfter(evs0, common, ctl, lost, e, k, deadline, memory)
  {
    if k < |common| {
      assert Earliest(evs1, common[k], e, deadline) <==> Earliest(evs0, common[k], e, deadline);
    }
  }

  // A new head of a common queue has the internal event rescheduled.
  method AddToCommon(b: EventBase, e: nat, k: nat, deadline: int, interval: Timeout, memory: bool)
    requires b.Valid() && e in b.evs && e !in b.ctl && !b.evs[e].finalizing && k < |b.common|
    requires e !in b.adrift
    requires Repeats(b.evs[e].(interval := interval)) ==> interval.common == Some(k)
    modifies b
    ensures b.Valid() && b.ctl == old(b.ctl) && |b.common| == |old(b.common)| && b.adrift == old(b.adrift)
    ensures b.lost == LostAfter(old(b.evs), old(b.common), b.ctl, old(b.lost), e, k, deadline, memory)
    ensures OnlyChanged(old(b.evs), b.evs, b.ctl, e, Timed(old(b.evs)[e], deadline, Some(k)).(interval := interval))
  {
    b.CtlThere(k);
    hide EventBase.ValidBut; hide Timed; hide OnlyChanged; hide Repeats; hide Earliest; hide Asleep;
    ghost var ev := Timed(b.evs[e], deadline, Some(k)).(interval := interval);
    JoinCommon(b, e, k, deadline, interval);
    ghost var evs1 := b.evs;
    if b.common[k][0] == e {
      SeeTo(b, k, memory);
    }
    SleepsStill(old(b.evs), b.ctl[k], e, ev);
    ChangedTwo(old(b.evs), evs1, b.evs, b.ctl, e, ev, k);
  }

  lemma SleepsStill(evs: Events, c: nat, e: nat, ev: Event)
    requires c != e
    ensures Asleep(evs[e := ev], c) <==> Asleep(evs, c)
  {
  }

  lemma ChangedThis(evs0: Events, evs: Events, ctl: seq<nat>, e: nat, ev: Event)
    requires e in evs0 && evs == evs0[e := ev]
    ensures OnlyChanged(evs0, evs, ctl, e, ev)
  {
  }

  lemma ChangedTwo(evs0: Events, evs1: Events, evs: Events, ctl: seq<nat>, e: nat, ev: Event, k: nat)
    requires e in evs0 && evs1 == evs0[e := ev] && evs.Keys == evs1.Keys && k < |ctl|
    requires forall x | x in evs && x != ctl[k] :: evs[x] == evs1[x]
    ensures OnlyChanged(evs0, evs, ctl, e, ev)
  {
    assert ctl[k] in ctl;
  }

  method SeeTo(b: EventBase, k: nat, memory: bool)
    requires k < |b.common| && |b.common[k]| > 0 && k < |b.ctl| && b.ctl[k] in b.evs && b.ValidBut(k)
    modifies b
    ensures b.Valid() && b.ctl == old(b.ctl) && b.common == old(b.common) && b.adrift == old(b.adrift)
    ensures b.lost == if !memory && Asleep(old(b.evs), b.ctl[k]) then old(b.lost) + {k} else old(b.lost) - {k}
    ensures b.evs.Keys == old(b.evs).Keys && forall x | x in b.evs && x != b.ctl[k] :: b.evs[x] == old(b.evs)[x]
  {
    hide EventBase.ValidBut; hide Timed;
    b.Schedule(k, memory);
  }

  // The part of event_add_nolock_ for a timeout; an event that was in the heap leaves room there.
  method AddTimeout(b: EventBase, e: nat, tv: Timeout, absolute: bool, now: int, memory: bool)
    requires b.Valid() && e in b.evs && e !in b.ctl && !b.evs[e].finalizing
    requires e !in b.adrift && (tv.common.Some? ==> tv.common.value < |b.common|)
    requires absolute && Repeats(b.evs[e]) ==> tv.common == b.evs[e].common
    modifies b
    ensures b.Valid() && b.ctl == old(b.ctl) && |b.common| == |old(b.common)|
    ensures b.adrift == old(b.adrift) + if Drifts(old(b.evs)[e], tv, memory) then {e} else {}
    ensures b.lost
              == LostByAdd(old(b.evs), old(b.common), b.ctl, old(b.lost), e, tv, Deadline(tv, absolute, now), memory)
    ensures OnlyChanged(old(b.evs), b.evs, b.ctl, e, Rearmed(old(b.evs)[e], tv, absolute, now))
  {
    hide EventBase.ValidBut; hide LostAfter; hide OnlyChanged; hide Timed;
    if Repeats(b.evs[e]) {
      b.RearmFact(e);
    }
    var interval := if b.evs[e].persist && !absolute then tv else b.evs[e].interval;
    if tv.common.Some? {
      AddToCommon(b, e, tv.common.value, Deadline(tv, absolute, now), interval, memory || InHeap(b.evs[e]));
    } else {
      AddToHeap(b, e, Deadline(tv, absolute, now), interval, !Drifts(b.evs[e], tv, memory));
      ChangedThis(old(b.evs), b.evs, b.ctl, e, Rearmed(old(b.evs)[e], tv, absolute, now));
    }
  }

  // An event in a common queue has reserved nothing: moved to a deadline of its own, it may
  // find no room in the heap.
  predicate Drifts(ev: Event, tv: Timeout, memory: bool) {
    tv.common.None? && ev.timeout && ev.common.Some? && !memory
  }

  predicate InHeap(ev: Event) {
    ev.timeout && ev.common.None?
  }

  /**
    event_add_nolock_; ioOk is what evmap_io_add_ and the backend say, memory what
    min_heap_reserve_ finds. A common timeout may lose its queue: LostAfter says when. An
    ordinary one may not get into the heap: Drifts says when. To remove the timeout of an
    event that is adrift is undefined.
  */
  method Add(
    b: EventBase, e: nat, tv: Option<Timeout>, absolute: bool, now: int, ioOk: bool, memory: bool)
    returns (res: int)
    requires b.Valid() && e in b.evs && e !in b.ctl
    requires tv.Some? && e in b.adrift ==> AddFails(b.evs[e], true, ioOk, memory)
    requires tv.Some? && tv.value.common.Some? ==> tv.value.common.value < |b.common|
    requires absolute && tv.Some? && Repeats(b.evs[e]) ==> tv.value.common == b.evs[e].common
    modifies b
    ensures b.Valid() && b.ctl == old(b.ctl) && |b.common| == |old(b.common)|
    ensures res == if AddFails(old(b.evs)[e], tv.Some?, ioOk, memory) then -1 else 0
    ensures res == -1 ==> b.evs == old(b.evs) && b.fds == old(b.fds)
    ensures res == -1 <==>
            var ev := old(b.evs)[e];
            || ev.finalizing || (tv.Some? && !ev.timeout && !memory)
            || (ev.io && !ev.inserted && !ev.active && !ev.later && ev.fd >= 0 && !ioOk)
    ensures res == 0 ==> e in b.evs && AddedAs(old(b.evs)[e], b.evs[e], tv, absolute, now)
    ensures res == 0 ==>
              var ev := old(b.evs)[e];
              e in b.fds <==> e in old(b.fds) || (ev.io && ev.fd >= 0 && !ev.active && !ev.later)
    ensures b.adrift == old(b.adrift) + if res == 0 && tv.Some?
              && Drifts(old(b.evs)[e], tv.value, memory) then {e} else {}
    ensures b.lost == if res == 0
              && tv.Some? then LostByAdd(old(b.evs), old(b.common), b.ctl, old(b.lost), e, tv.value,
                  Deadline(tv.value, absolute, now), memory) else old(b.lost)
    ensures res == 0 ==> OnlyChanged(old(b.evs), b.evs, b.ctl, e, Added(old(b.evs)[e], tv, absolute, now))
    ensures var ev := old(b.evs)[e];
            && (e in b.adrift && e !in old(b.adrift) <==>
                res == 0 && tv.Some? && tv.value.common.None? && ev.timeout && ev.common.Some? && !memory)
            && (b.lost <= old(b.lost) || (ev.timeout && ev.common.Some? && !memory))
  {
    FdsNow(b, e);
    LosesOnly(b, e, tv, absolute, now, memory);
    AddMeans(b.evs[e], tv, absolute, now);
    hide EventBase.ValidBut; hide Added; hide OnlyChanged; hide LostByAdd; hide Deadline;
    if b.evs[e].finalizing {
      return -1;
    }
    if tv.Some? && !b.evs[e].timeout && !memory {
      return -1;
    }
    if NeedsInsert(b.evs[e]) && b.evs[e].fd >= 0 && !ioOk {
      return -1;
    }
    ghost var evs0 := b.evs;
    AddBoth(b, e, tv, absolute, now, memory);
    ChangedOne(evs0, b.evs, b.ctl, e, Added(evs0[e], tv, absolute, now));
    FdsNow(b, e);
    return 0;
  }

  /** What an add makes of an event, field by field. */
  ghost predicate AddedAs(ev: Event, r: Event, tv: Option<Timeout>, absolute: bool, now: int) {
    && r.later == ev.later && r.io == ev.io && r.fd == ev.fd && r.pri == ev.pri && r.persist == ev.persist
    && r.finalizing == ev.finalizing && r.timedOut == ev.timedOut
    && (r.inserted <==> ev.inserted || (ev.io && !ev.active && !ev.later))
    && (tv.None? ==> r.(inserted := ev.inserted) == ev)
    && (tv.Some? ==>
        && r.timeout && r.common == tv.value.common && r.deadline == (if absolute then 0 else now) + tv.value.time
        && (r.active <==> ev.active && !ev.timedOut)
        && r.interval == if ev.persist && !absolute then tv.value else ev.interval)
  }

  lemma AddMeans(ev: Event, tv: Option<Timeout>, absolute: bool, now: int)
    ensures AddedAs(ev, Added(ev, tv, absolute, now), tv, absolute, now)
  {
  }

  // A list gets lost only when an event comes over from another list and there is no room.
  lemma LosesOnly(b: EventBase, e: nat, tv: Option<Timeout>, absolute: bool, now: int, memory: bool)
    requires b.Valid() && e in b.evs
    ensures e in b.adrift ==> b.evs[e].timeout && b.evs[e].common.None?
    ensures tv.Some? && (memory || (b.evs[e].timeout && b.evs[e].common.None?)) ==>
              LostByAdd(b.evs, b.common, b.ctl, b.lost, e, tv.value, Deadline(tv.value, absolute, now),
                  memory) <= b.lost
  {
    b.QueueFacts(e);
  }

  lemma FdsNow(b: EventBase, e: nat)
    requires b.Valid() && e in b.evs
    ensures e in b.fds <==> b.evs[e].inserted && b.evs[e].fd >= 0
    ensures b.evs[e].inserted ==> b.evs[e].io
  {
    b.QueueFacts(e);
  }

  lemma ChangedOne(evs0: Events, evs: Events, ctl: seq<nat>, e: nat, ev: Event)
    requires OnlyChanged(evs0, evs, ctl, e, ev) && e in evs0 && e !in ctl
    ensures e in evs && evs[e] == ev
  {
  }

  // The fd, if it is to be watched, and the timeout, if there is one.
  method AddBoth(b: EventBase, e: nat, tv: Option<Timeout>, absolute: bool, now: int, memory: bool)
    requires b.Valid() && e in b.evs && e !in b.ctl && !b.evs[e].finalizing && (tv.Some? ==> e !in b.adrift)
    requires tv.Some? && tv.value.common.Some? ==> tv.value.common.value < |b.common|
    requires absolute && tv.Some? && Repeats(b.evs[e]) ==> tv.value.common == b.evs[e].common
    modifies b
    ensures b.Valid() && b.ctl == old(b.ctl) && |b.common| == |old(b.common)|
    ensures b.adrift == old(b.adrift) + if tv.Some? && Drifts(old(b.evs)[e], tv.value, memory) then {e} else {}
    ensures b.lost == if tv.Some?
              then LostByAdd(old(b.evs), old(b.common), b.ctl, old(b.lost), e, tv.value,
                  Deadline(tv.value, absolute, now), memory) else old(b.lost)
    ensures OnlyChanged(old(b.evs), b.evs, b.ctl, e, Added(old(b.evs)[e], tv, absolute, now))
  {
    hide EventBase.ValidBut; hide Rearmed; hide LostAfter;
    ghost var evs0 := b.evs;
    if NeedsInsert(b.evs[e]) {
      Insert(b, e);
      if tv.Some? && tv.value.common.Some? {
        LostSame(evs0, b.evs, b.common, b.ctl, b.lost, e, tv.value.common.value, Deadline(tv.value, absolute, now),
            memory || InHeap(evs0[e]), b.evs[e]);
      }
    }
    if tv.Some? {
      AddTimeout(b, e, tv.value, absolute, now, memory);
    }
  }

  // A timeout of its own loses no queue, and an event that was in the heap leaves room there.
  ghost function LostByAdd(
    evs: Events, common: seq<seq<nat>>, ctl: seq<nat>, lost: set<nat>, e: nat, tv: Timeout, deadline: int,
    memory: bool): set<nat>
    requires e in evs
  {
    if tv.common.None? then lost
    else LostAfter(evs, common, ctl, lost, e, tv.common.value, deadline, memory || InHeap(evs[e]))
  }

  // An event being finalized, no memory for a new timeout, or an fd that is refused.
  predicate AddFails(ev: Event, timed: bool, ioOk: bool, memory: bool) {
    ev.finalizing || (timed && !ev.timeout && !memory) || (NeedsInsert(ev) && ev.fd >= 0 && !ioOk)
  }

  method Insert(b: EventBase, e: nat)
    requires b.Valid() && e in b.evs && e !in b.ctl && !b.evs[e].finalizing && NeedsInsert(b.evs[e])
    modifies b
    ensures b.Valid() && b.ctl == old(b.ctl) && b.lost == old(b.lost) && b.adrift == old(b.adrift)
              && b.common == old(b.common)
    ensures b.evs == old(b.evs)[e := old(b.evs)[e].(inserted := true)]
  {
    hide EventBase.Queues; hide Served; hide CommonOk; hide CtlOk; hide Rearmable; hide HeapOk; hide FlagsOk;
    hide ActiveOk; hide LaterOk;
    b.QueuesNow();
    RearmNow(b.evs, |b.common|, e);
    ghost var ev, evs0 := b.evs[e], b.evs;
    b.InsertInserted(e);
    ServedKeep(evs0, b.common, b.ctl, b.lost, -1, e, ev.(inserted := true));
    RearmKeep(evs0, |b.common|, e, ev.(inserted := true));
  }
}
