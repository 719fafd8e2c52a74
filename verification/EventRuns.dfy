/**
  Whole runs of an event base: setting it up, every call a user or the loop may make, and
  the invariant that all of them keep.
*/
module EventRuns {
  import opened Basics
  import opened Lists
  import opened EventQueues
  import opened EventLoop
  import opened EventTimers
  import opened EventDispatch

  // ------------------------------------------------------------------------
  // New events and new common timeouts

  lemma {:induction false} WeightBelow(evs: Events, e: nat, ev: Event, n: nat)
    requires n <= e
    ensures TotalWeight(evs[e := ev], n) == TotalWeight(evs, n)
    decreases n
  {
    if n > 0 {
      WeightBelow(evs, e, ev, n - 1);
    }
  }

  // An event that is in no queue joins the known ones.
  lemma {:induction false} NewEventQueues(b: EventBase, ev: Event)
    requires b.Queues() && ev == Idle(ev) && ev.pri < |b.active|
    ensures b.limit !in b.evs && b.limit !in b.ctl && b.limit !in b.adrift
    ensures var evs := b.evs[b.limit := ev];
            ActiveOk(evs, b.active) && LaterOk(evs, b.laterQ) && HeapOk(evs, b.heap + b.adrift) && FdOk(evs, b.fds)
                && FlagsOk(evs) && CtlOk(evs, b.ctl)
  {
  }

  lemma {:induction false} NewEventCommon(b: EventBase, ev: Event)
    requires b.Queues() && ev == Idle(ev)
    ensures CommonOk(b.evs[b.limit := ev], b.common)
  {
    var evs := b.evs[b.limit := ev];
    forall k | 0 <= k < |b.common| ensures Sorted(evs, b.common[k]) {
      CommonMembers(b.evs, b.common, k);
      assert b.limit !in b.common[k];
      SortedElsewhere(b.evs, evs, b.common[k]);
    }
  }

  lemma {:induction false} NewEventServed(b: EventBase, ev: Event)
    requires b.Valid() && (Repeats(ev) ==> Consistent(ev, |b.common|))
    ensures Served(b.evs[b.limit := ev], b.common, b.ctl, b.lost, -1) && Rearmable(b.evs[b.limit := ev], |b.common|)
  {
    forall k: nat | k < |b.common| && k !in b.lost && |b.common[k]| > 0
      ensures Serves(b.evs[b.limit := ev], b.ctl[k], b.common[k][0])
    {
      assert Serves(b.evs, b.ctl[k], b.common[k][0]);
    }
  }

  lemma NewEventCount(b: EventBase, ev: Event)
    requires b.Queues() && ev == Idle(ev)
    ensures Below(b.evs[b.limit := ev], b.limit + 1)
    ensures b.count == TotalWeight(b.evs[b.limit := ev], b.limit + 1)
  {
    WeightBelow(b.evs, b.limit, ev, b.limit);
  }

  /** event_assign */
  method Assign(b: EventBase, ev: Event) returns (e: nat)
    requires b.Valid() && ev == Idle(ev) && ev.pri < |b.active| && ev.interval == Timeout(0, None)
    modifies b
    ensures b.Valid() && b.ctl == old(b.ctl) && b.lost == old(b.lost) && b.adrift == old(b.adrift)
              && b.common == old(b.common) && b.durations == old(b.durations)
    ensures e !in old(b.evs) && b.evs == old(b.evs)[e := ev] && e !in b.ctl
  {
    e := b.limit;
    NewEventQueues(b, ev);
    NewEventCommon(b, ev);
    NewEventServed(b, ev);
    NewEventCount(b, ev);
    hide Served; hide CommonOk; hide CtlOk; hide Rearmable; hide HeapOk; hide FlagsOk; hide ActiveOk; hide LaterOk;
    hide FdOk;
    hide TotalWeight; hide Lengths; hide Below;
    b.evs := b.evs[e := ev];
    b.limit := e + 1;
  }

  // A new, empty common queue with its internal event.
  lemma {:induction false} NewQueue(b: EventBase, c: nat)
    requires b.Valid() && c in b.evs && c !in b.ctl && b.evs[c].internal && !b.evs[c].io && !b.evs[c].persist
              && b.evs[c] == Idle(b.evs[c])
    requires !b.evs[c].finalizing
    ensures CommonOk(b.evs, b.common + [[]]) && CtlOk(b.evs, b.ctl + [c])
    ensures Served(b.evs, b.common + [[]], b.ctl + [c], b.lost, -1) && Rearmable(b.evs, |b.common| + 1)
  {
    var common := b.common + [[]];
    forall k | 0 <= k < |common| ensures NoDup(common[k]) && Sorted(b.evs, common[k]) {
    }
    forall k, e | 0 <= k < |common|
      ensures e in common[k] <==> e in b.evs && b.evs[e].timeout && b.evs[e].common == Some(k)
    {
      if k < |b.common| {
        assert e in b.common[k] <==> e in b.evs && b.evs[e].timeout && b.evs[e].common == Some(k);
      }
    }
    forall k: nat | k < |common| && k !in b.lost && |common[k]| > 0
      ensures Serves(b.evs, (b.ctl + [c])[k], common[k][0])
    {
      assert Serves(b.evs, b.ctl[k], b.common[k][0]);
    }
  }

  const MAX_COMMON_TIMEOUTS := 256

  /** event_base_init_common_timeout: the queue of this duration, made if there is none */
  method InitCommonTimeout(b: EventBase, duration: int, memory: bool) returns (k: Option<nat>)
    requires b.Valid() && |b.active| > 0
    modifies b
    ensures b.Valid() && old(b.common) <= b.common && old(b.ctl) <= b.ctl && b.lost == old(b.lost)
              && b.adrift == old(b.adrift)
    ensures forall x | x in old(b.evs) :: x in b.evs && b.evs[x] == old(b.evs)[x]
    ensures k.Some? ==> k.value < |b.common| && k.value < |b.durations| && b.durations[k.value] == duration
    ensures k.None? <==> duration !in old(b.durations) && (|old(b.ctl)| >= MAX_COMMON_TIMEOUTS || !memory)
    ensures k.None? ==> b.evs == old(b.evs) && b.common == old(b.common) && b.durations == old(b.durations)
    ensures duration in old(b.durations) ==> b.evs == old(b.evs) && b.common == old(b.common)
  {
    var i := 0;
    while i < |b.durations|
      invariant i <= |b.durations| && duration !in b.durations[..i]
    {
      if b.durations[i] == duration {
        return Some(i);
      }
      i := i + 1;
    }
    assert b.durations[..i] == b.durations;
    if |b.ctl| >= MAX_COMMON_TIMEOUTS {
      return None;
    }
    if !memory {
      return None;
    }
    k := Some(|b.ctl|);
    MakeQueue(b, duration);
  }

  method MakeQueue(b: EventBase, duration: int)
    requires b.Valid() && |b.active| > 0
    modifies b
    ensures b.Valid() && b.durations == old(b.durations) + [duration] && b.lost == old(b.lost)
              && b.adrift == old(b.adrift)
    ensures forall x | x in old(b.evs) :: x in b.evs && b.evs[x] == old(b.evs)[x]
    ensures b.common == old(b.common) + [[]] && |b.ctl| == |b.common| && old(b.ctl) <= b.ctl
  {
    hide EventBase.ValidBut;
    var c := Assign(b,
        Event(0, true, false, -1, false, false, false, false, false, false, false, 0, None, Timeout(0, None)));
    AppendQueue(b, c, duration);
  }

  method AppendQueue(b: EventBase, c: nat, duration: int)
    requires b.Valid() && c in b.evs && c !in b.ctl && b.evs[c].internal && !b.evs[c].io && !b.evs[c].persist
    requires b.evs[c] == Idle(b.evs[c]) && !b.evs[c].finalizing
    modifies b`common, b`ctl, b`durations
    ensures b.Valid() && b.durations == old(b.durations) + [duration]
    ensures b.common == old(b.common) + [[]] && |b.ctl| == |b.common| && b.ctl == old(b.ctl) + [c]
  {
    NewQueue(b, c);
    b.QueueFacts(c);
    hide Served; hide CommonOk; hide CtlOk; hide Rearmable; hide HeapOk; hide FlagsOk; hide ActiveOk; hide LaterOk;
    hide FdOk;
    hide TotalWeight; hide Lengths; hide Below;
    b.common := b.common + [[]];
    b.ctl := b.ctl + [c];
    b.durations := b.durations + [duration];
  }

  // ------------------------------------------------------------------------
  // Running what is active

  /** When event_persist_closure will have a persistent event run again. */
  function NextRun(ev: Event, now: int): (at: int)
    ensures ev.interval.time >= 0 ==> at >= now
    ensures ev.timedOut && ev.deadline + ev.interval.time >= now ==> at - ev.deadline == ev.interval.time
    ensures ev.timedOut && ev.deadline + ev.interval.time < now ==> at - now == ev.interval.time
    ensures !ev.timedOut && ev.interval.time >= 0 ==> at - now == ev.interval.time
  {
    var at := (if ev.timedOut then ev.deadline else now) + ev.interval.time;
    if at < now then now + ev.interval.time else at
  }

  // An ordinary event as its callback finds it.
  function Run(ev: Event, now: int, ioOk: bool, memory: bool): Event {
    var ev1 := ev.(active := false);
    if !ev.persist && !ev.finalizing then Idle(ev)
    else if !Repeats(ev) || AddFails(ev1, true, ioOk, memory) then ev1
    else Added(ev1, Some(Timeout(NextRun(ev1, now), ev.common)), true, now)
  }

  // Running an ordinary event removes its timeout, to delete it or to arm it again.
  predicate Removes(ev: Event, ioOk: bool, memory: bool) {
    if !ev.persist && !ev.finalizing then true
    else Repeats(ev) && !AddFails(ev.(active := false), true, ioOk, memory)
  }

  method LeaveActive(b: EventBase, e: nat)
    requires b.Valid() && e in b.evs && e !in b.ctl && b.evs[e].active
    modifies b
    ensures b.Valid() && b.ctl == old(b.ctl) && b.lost == old(b.lost) && b.adrift == old(b.adrift)
              && b.common == old(b.common)
    ensures b.evs == old(b.evs)[e := old(b.evs)[e].(active := false)]
  {
    hide EventBase.Queues; hide Served; hide CommonOk; hide CtlOk; hide Rearmable; hide HeapOk; hide FlagsOk;
    hide ActiveOk; hide LaterOk;
    b.QueuesNow();
    RearmNow(b.evs, |b.common|, e);
    ghost var ev, evs0 := b.evs[e], b.evs;
    b.RemoveActive(e);
    ServedKeep(evs0, b.common, b.ctl, b.lost, -1, e, ev.(active := false));
    RearmKeep(evs0, |b.common|, e, ev.(active := false));
  }

  // One ordinary event is taken off the active queue and, if it repeats, armed again.
  method RunOrdinary(b: EventBase, e: nat, now: int, ioOk: bool, memory: bool)
    requires b.Valid() && e in b.evs && e !in b.ctl && b.evs[e].active
    requires e in b.adrift ==> !Removes(b.evs[e], ioOk, memory)
    modifies b
    ensures b.Valid() && b.ctl == old(b.ctl) && |b.common| == |old(b.common)| && b.adrift == old(b.adrift)
    ensures OnlyChanged(old(b.evs), b.evs, b.ctl, e, Run(old(b.evs)[e], now, ioOk, memory))
    ensures memory ==> b.lost <= old(b.lost)
    ensures e in b.evs && RanAs(old(b.evs)[e], b.evs[e], now, ioOk, memory)
  {
    hide EventBase.ValidBut; hide RanAs; hide Run; hide OnlyChanged; hide Removes;
    ghost var evs0 := b.evs;
    RunMeans(evs0[e], now, ioOk, memory);
    TakeOff(b, e, now, ioOk, memory);
    ChangedOne(evs0, b.evs, b.ctl, e, Run(evs0[e], now, ioOk, memory));
  }

  method TakeOff(b: EventBase, e: nat, now: int, ioOk: bool, memory: bool)
    requires b.Valid() && e in b.evs && e !in b.ctl && b.evs[e].active
    requires e in b.adrift ==> !Removes(b.evs[e], ioOk, memory)
    modifies b
    ensures b.Valid() && b.ctl == old(b.ctl) && |b.common| == |old(b.common)| && b.adrift == old(b.adrift)
    ensures OnlyChanged(old(b.evs), b.evs, b.ctl, e, Run(old(b.evs)[e], now, ioOk, memory))
    ensures memory ==> b.lost <= old(b.lost)
  {
    hide EventBase.ValidBut; hide AddedAs;
    if !b.evs[e].persist && !b.evs[e].finalizing {
      var res := Delete(b, e, ioOk);
    } else {
      LeaveActive(b, e);
      if Repeats(b.evs[e]) {
        b.RearmFact(e);
        var res := Add(b, e, Some(Timeout(NextRun(b.evs[e], now), b.evs[e].common)), true, now, ioOk, memory);
      }
    }
  }

  /**
    What running makes of an event, field by field: gone from everywhere if it is neither
    persistent nor finalizing; otherwise off the active queue and, if it has an interval that
    it can wait for, armed for its next run with the interval kept.
  */
  ghost predicate RanAs(ev: Event, r: Event, now: int, ioOk: bool, memory: bool) {
    && !r.active && r.finalizing == ev.finalizing && r.interval == ev.interval
    && (!ev.persist && !ev.finalizing ==> !r.inserted && !r.later && !r.timeout)
    && (ev.finalizing || (ev.persist && ev.interval == Timeout(0, None)) ==> r == ev.(active := false))
    && var watch := ev.io && !ev.inserted && !ev.later && ev.fd >= 0;
    ev.persist && !ev.finalizing && ev.interval != Timeout(0, None) && (ev.timeout || memory) && (watch ==> ioOk) ==>
      && r.timeout && r.deadline == NextRun(ev, now) && r.common == ev.common && (watch ==> r.inserted)
  }

  lemma RunMeans(ev: Event, now: int, ioOk: bool, memory: bool)
    ensures RanAs(ev, Run(ev, now, ioOk, memory), now, ioOk, memory)
  {
    hide NextRun;
    var ev1 := ev.(active := false);
    NextSame(ev, now);
    if Repeats(ev) && !AddFails(ev1, true, ioOk, memory) {
      AddMeans(ev1, Some(Timeout(NextRun(ev1, now), ev.common)), true, now);
      hide Added;
    }
  }

  lemma NextSame(ev: Event, now: int)
    ensures NextRun(ev.(active := false), now) == NextRun(ev, now)
  {
  }

  lemma ActiveHead(b: EventBase, p: nat)
    requires b.Valid() && p < |b.active| && |b.active[p]| > 0
    ensures var e := b.active[p][0]; e in b.evs && b.evs[e].active && b.evs[e].pri == p
    ensures forall k | 0 <= k < |b.ctl| :: b.ctl[k] in b.evs
    ensures |b.ctl| == |b.common|
  {
    assert b.active[p][0] in b.active[p];
  }

  /** A step of event_process_active_single_queue, up to the user's callback */
  method RunFirst(b: EventBase, p: nat, now: int, ioOk: bool, memory: bool) returns (e: nat)
    requires b.Valid() && p < |b.active| && |b.active[p]| > 0 && !Undefined(b, RunQueue(p, ioOk, memory))
    modifies b
    ensures b.Valid() && b.ctl == old(b.ctl) && |b.common| == |old(b.common)| && b.evs.Keys == old(b.evs).Keys
    ensures b.adrift == old(b.adrift)
    ensures e == old(b.active)[p][0] && e in b.evs && (memory ==> b.lost <= old(b.lost))
    ensures e !in b.ctl ==> OnlyChanged(old(b.evs), b.evs, b.ctl, e, Run(old(b.evs)[e], now, ioOk, memory))
    ensures e !in b.ctl ==> RanAs(old(b.evs)[e], b.evs[e], now, ioOk, memory)
    ensures e in b.ctl ==> exists k: nat ::
              k < |b.ctl| && b.ctl[k] == e && k < |old(b.common)|
                  && RanQueue(old(b.evs), b.evs, e, old(b.common)[k], now)
  {
    ActiveHead(b, p);
    LooseIff(b, b.active[p][0]);
    hide EventBase.ValidBut; hide Removes; hide Loose; hide RanAs;
    e := b.active[p][0];
    if e in b.ctl {
      var k: nat :| k < |b.ctl| && b.ctl[k] == e;
      RunInternal(b, k, now, memory);
    } else {
      RunOrdinary(b, e, now, ioOk, memory);
    }
  }

  // The active queues with the events of q put at the end of theirs, one after another.
  function InTurn(active: seq<seq<nat>>, q: seq<nat>, evs: Events): (r: seq<seq<nat>>)
    ensures |r| == |active|
    decreases |q|
  {
    if |q| == 0 then active
    else if q[0] !in evs || evs[q[0]].pri >= |active| then InTurn(active, q[1..], evs)
    else InTurn(active[evs[q[0]].pri := active[evs[q[0]].pri] + [q[0]]], q[1..], evs)
  }

  lemma {:induction false} InTurnNext(active: seq<seq<nat>>, q: seq<nat>, evs: Events, evs': Events)
    requires |q| > 0 && forall x | x in q :: x in evs && x in evs' && evs[x].pri == evs'[x].pri
    ensures InTurn(active, q, evs) == InTurn(InTurn(active, q[..1], evs), q[1..], evs')
  {
    assert q[..1][0] == q[0] && q[..1][1..] == [];
    InTurnSame(InTurn(active, q[..1], evs), q[1..], evs, evs');
  }

  lemma {:induction false} InTurnSame(active: seq<seq<nat>>, q: seq<nat>, evs: Events, evs': Events)
    requires forall x | x in q :: x in evs && x in evs' && evs[x].pri == evs'[x].pri
    ensures InTurn(active, q, evs) == InTurn(active, q, evs')
    decreases |q|
  {
    if |q| > 0 {
      assert q[0] in q;
      assert forall x | x in q[1..] :: x in q;
      if evs[q[0]].pri >= |active| {
        InTurnSame(active, q[1..], evs, evs');
      } else {
        InTurnSame(active[evs[q[0]].pri := active[evs[q[0]].pri] + [q[0]]], q[1..], evs, evs');
      }
    }
  }

  lemma {:induction false} OneInTurn(active: seq<seq<nat>>, q: seq<nat>, evs: Events)
    requires |q| > 0 && q[0] in evs && evs[q[0]].pri < |active|
    ensures InTurn(active, q[..1], evs) == active[evs[q[0]].pri := active[evs[q[0]].pri] + [q[0]]]
  {
    assert q[..1][0] == q[0] && q[..1][1..] == [];
  }

  // The first of the active-later queue moves over.
  method MoveLater(b: EventBase)
    requires b.Valid() && |b.laterQ| > 0
    modifies b
    ensures b.Valid() && b.ctl == old(b.ctl) && b.lost == old(b.lost) && b.adrift == old(b.adrift)
              && b.common == old(b.common) && b.laterQ == old(b.laterQ)[1..] && b.countActive == old(b.countActive)
    ensures b.active == InTurn(old(b.active), old(b.laterQ)[..1], old(b.evs))
    ensures var e := old(b.laterQ)[0];
            e in old(b.evs) && !old(b.evs)[e].active && e !in b.laterQ
            && b.evs == old(b.evs)[e := old(b.evs)[e].(later := false, active := true)]
  {
    hide EventBase.Queues; hide Without; hide Served; hide CommonOk; hide CtlOk; hide Rearmable; hide HeapOk;
    hide FlagsOk; hide ActiveOk; hide LaterOk;
    var e := b.laterQ[0];
    b.QueuesNow();
    LaterHead(b.evs, b.laterQ);
    b.QueueFacts(e);
    RearmNow(b.evs, |b.common|, e);
    ghost var ev, evs0 := b.evs[e], b.evs;
    b.RemoveLater(e);
    b.InsertActive(e);
    ghost var ev' := ev.(later := false, active := true);
    OneInTurn(old(b.active), old(b.laterQ), evs0);
    UpdateTwice(evs0, e, ev.(later := false), ev');
    ServedKeep(evs0, b.common, b.ctl, b.lost, -1, e, ev');
    RearmKeep(evs0, |b.common|, e, ev');
  }

  lemma LaterHead(evs: Events, q: seq<nat>)
    requires LaterOk(evs, q) && |q| > 0
    ensures q[0] in evs && evs[q[0]].later && Without(q, q[0]) == q[1..] && q[0] !in q[1..]
  {
    assert q[0] in q;
  }

  /** event_queue_make_later_events_active */
  method MakeLaterActive(b: EventBase)
    requires b.Valid()
    modifies b
    ensures b.Valid() && b.ctl == old(b.ctl) && b.lost == old(b.lost) && b.adrift == old(b.adrift)
              && b.common == old(b.common) && b.laterQ == [] && b.countActive == old(b.countActive)
    ensures b.evs.Keys == old(b.evs).Keys && b.active == InTurn(old(b.active), old(b.laterQ), old(b.evs))
    ensures forall x | x in b.evs ::
              b.evs[x] == old(b.evs)[x].(later := false, active := old(b.evs)[x].active || old(b.evs)[x].later)
  {
    hide EventBase.ValidBut;
    ghost var evs0 := b.evs;
    while |b.laterQ| > 0
      invariant b.Valid() && b.ctl == old(b.ctl) && b.lost == old(b.lost) && b.adrift == old(b.adrift)
                && b.common == old(b.common) && b.countActive == old(b.countActive)
      invariant b.evs.Keys == evs0.Keys
      invariant forall x | x in evs0 ::
                b.evs[x] == evs0[x] || (evs0[x].later && b.evs[x] == evs0[x].(later := false, active := true))
      invariant InTurn(b.active, b.laterQ, b.evs) == InTurn(old(b.active), old(b.laterQ), evs0)
      decreases |b.laterQ|
    {
      LaterNow(b);
      ghost var active1, later1, evs1 := b.active, b.laterQ, b.evs;
      MoveLater(b);
      InTurnNext(active1, later1, evs1, b.evs);
    }
    LaterNow(b);
  }

  lemma LaterNow(b: EventBase)
    requires b.Valid()
    ensures forall x :: x in b.laterQ <==> x in b.evs && b.evs[x].later
    ensures forall x | x in b.evs :: !(b.evs[x].later && b.evs[x].active)
  {
    b.QueuesNow();
  }

  // ------------------------------------------------------------------------
  // Runs

  /** What a user, a callback or the loop itself may do. */
  datatype Call =
    | CallAssign(ev: Event)
    | CallCommon(duration: int, memory: bool)
    | CallAdd(e: nat, tv: Option<Timeout>, ioOk: bool, memory: bool)
    | CallDel(e: nat, ioOk: bool)
    | CallActive(e: nat, t: bool)         // t: for the reason EV_TIMEOUT, among others
    | CallLater(e: nat, t: bool)
    | CallFinalize(e: nat, ioOk: bool)
    | CallRemoveTimer(e: nat)
    | WakeUp                              // timeout_process
    | RunQueue(p: nat, io: bool, mem: bool)  // the first active event of priority p
    | StartTurn                           // the active-later queue is emptied

  // The call finds room in the heap if it looks for any.
  predicate Roomy(call: Call) {
    match call
    case CallAdd(_, _, _, memory) => memory
    case RunQueue(_, _, mem) => mem
    case _ => true
  }

  // The events a caller can name: the internal ones are nobody's.
  predicate Mine(b: EventBase, e: nat)
    reads b
  {
    e in b.evs && e !in b.ctl
  }

  predicate Timely(b: EventBase, tv: Option<Timeout>)
    reads b
  {
    tv.Some? && tv.value.common.Some? ==> tv.value.common.value < |b.common|
  }

  // The event has EVLIST_TIMEOUT and an ordinary deadline, and is not in the heap.
  predicate Loose(b: EventBase, e: nat)
    reads b
  {
    e in b.evs && b.evs[e].timeout && b.evs[e].common.None? && e !in b.heap
  }

  /** These are the events whose push into the heap has failed. */
  lemma LooseIff(b: EventBase, e: nat)
    requires b.Valid() && e in b.evs
    ensures Loose(b, e) <==> e in b.adrift
  {
    b.QueueFacts(e);
  }

  /**
    The call would take such an event out of the heap. The source then erases by an index
    that shares its memory with the links of a common queue: there is no telling what happens.
  */
  predicate Undefined(b: EventBase, call: Call)
    reads b
  {
    match call
    case CallAdd(e, tv, ioOk, memory) =>
      Mine(b, e) && Timely(b, tv) && tv.Some? && Loose(b, e) && !AddFails(b.evs[e], true, ioOk, memory)
    case CallDel(e, _) => Mine(b, e) && Loose(b, e)
    case CallFinalize(e, _) => Mine(b, e) && Loose(b, e)
    case CallRemoveTimer(e) => Mine(b, e) && Loose(b, e)
    case RunQueue(p, io, mem) =>
      && p < |b.active| && |b.active[p]| > 0 && Mine(b, b.active[p][0])
      && Loose(b, b.active[p][0]) && Removes(b.evs[b.active[p][0]], io, mem)
    case _ => false
  }

  // A finalized event stays so.
  ghost predicate Lasting(evs0: Events, evs: Events) {
    forall x | x in evs0 :: x in evs && (evs0[x].finalizing ==> evs[x].finalizing)
  }

  lemma {:induction false} LastingChange(b: EventBase, evs0: Events, e: nat, ev: Event)
    requires OnlyChanged(evs0, b.evs, b.ctl, e, ev) && b.Valid()
    requires e in evs0 && (evs0[e].finalizing ==> ev.finalizing)
    requires forall x | x in b.ctl && x in evs0 :: !evs0[x].finalizing
    ensures Lasting(evs0, b.evs)
  {
  }

  lemma CtlLive(b: EventBase)
    requires b.Valid()
    ensures forall x | x in b.ctl :: x in b.evs && !b.evs[x].finalizing
  {
    forall x | x in b.ctl ensures x in b.evs && !b.evs[x].finalizing {
      CtlPlain(b.evs, b.ctl, x);
    }
  }

  // What a call with room in the heap cannot do.
  ghost predicate Secure(call: Call, lost0: set<nat>, adrift0: set<nat>, lost: set<nat>, adrift: set<nat>) {
    Roomy(call) ==> lost <= lost0 && adrift <= adrift0
  }

  /** What can be seen of a base. */
  datatype View = View(
    evs: Events, active: seq<seq<nat>>, laterQ: seq<nat>, heap: set<nat>, common: seq<seq<nat>>, ctl: seq<nat>,
    durations: seq<int>)

  ghost function ViewOf(b: EventBase): View
    reads b
  {
    View(b.evs, b.active, b.laterQ, b.heap, b.common, b.ctl, b.durations)
  }

  ghost predicate Named(v: View, e: nat) {
    e in v.evs && e !in v.ctl
  }

  // Nobody but event e and internal ones changes.
  ghost predicate OthersStay(v: View, w: View, e: nat) {
    && w.ctl == v.ctl && w.evs.Keys == v.evs.Keys && e in v.evs
    && forall x | x in v.evs && x !in v.ctl && x != e :: w.evs[x] == v.evs[x]
  }

  /** What each call does at time `now`, field by field; one that its caller may not make does nothing. */
  ghost predicate Did(call: Call, now: int, v: View, w: View) {
    match call
    case CallAssign(ev) => DidAssign(v, w, ev)
    case CallCommon(duration, memory) => DidCommon(v, w, duration, memory)
    case CallAdd(e, tv, ioOk, memory) => DidAdd(v, w, e, tv, ioOk, memory, now)
    case CallDel(e, ioOk) => DidDel(v, w, e, ioOk)
    case CallActive(e, t) => DidActive(v, w, e, t)
    case CallLater(e, t) => DidLater(v, w, e, t)
    case CallFinalize(e, ioOk) => DidFinalize(v, w, e, ioOk)
    case CallRemoveTimer(e) => DidRemoveTimer(v, w, e)
    case WakeUp => DidWakeUp(v, w, now)
    case RunQueue(p, io, mem) => DidRunQueue(v, w, p, io, mem, now)
    case StartTurn => DidStartTurn(v, w)
  }

  ghost predicate DidAssign(v: View, w: View, ev: Event) {
    if ev == Idle(ev) && ev.pri < |v.active| && ev.interval == Timeout(0, None) then
      w.ctl == v.ctl && exists e: nat :: e !in v.evs && w.evs == v.evs[e := ev]
    else w == v
  }

  ghost predicate DidCommon(v: View, w: View, duration: int, memory: bool) {
    && v.ctl <= w.ctl && (forall x | x in v.evs :: x in w.evs && w.evs[x] == v.evs[x])
    && (duration in w.durations <==>
        duration in v.durations || (|v.active| > 0 && |v.ctl| < MAX_COMMON_TIMEOUTS && memory))
  }

  ghost predicate DidAdd(v: View, w: View, e: nat, tv: Option<Timeout>, ioOk: bool, memory: bool, now: int) {
    if !Named(v, e) || (tv.Some? && tv.value.common.Some? && tv.value.common.value >= |v.common|) then w == v
    else
      var ev := v.evs[e];
      && OthersStay(v, w, e)
      && if ev.finalizing || (tv.Some? && !ev.timeout && !memory)
           || (ev.io && !ev.inserted && !ev.active && !ev.later && ev.fd >= 0 && !ioOk)
         then w.evs[e] == ev
         else AddedAs(ev, w.evs[e], tv, false, now)
  }

  ghost predicate DidDel(v: View, w: View, e: nat, ioOk: bool) {
    if !Named(v, e) then w == v
    else
      && OthersStay(v, w, e)
      && w.evs[e] == if v.evs[e].finalizing then v.evs[e]
                     else v.evs[e].(inserted := false, active := false, later := false, timeout := false)
  }

  ghost predicate DidActive(v: View, w: View, e: nat, t: bool) {
    if !Named(v, e) then w == v
    else
      var ev := v.evs[e];
      && OthersStay(v, w, e)
      && w.evs[e] == if ev.finalizing then ev
                     else ev.(active := true, later := false, timedOut := t || (ev.timedOut && (ev.active || ev.later)))
  }

  ghost predicate DidLater(v: View, w: View, e: nat, t: bool) {
    if !Named(v, e) then w == v
    else
      var ev := v.evs[e];
      && OthersStay(v, w, e)
      && w.evs[e] == ev.(later := !ev.active, timedOut := t || (ev.timedOut && (ev.active || ev.later)))
  }

  ghost predicate DidFinalize(v: View, w: View, e: nat, ioOk: bool) {
    if !Named(v, e) then w == v
    else
      var ev := v.evs[e];
      && OthersStay(v, w, e)
      && w.evs[e] == if ev.finalizing then ev
                     else ev.(inserted := false, active := true, later := false, timeout := false, timedOut := false,
                              finalizing := true)
  }

  ghost predicate DidRemoveTimer(v: View, w: View, e: nat) {
    if !Named(v, e) then w == v
    else
      var ev := v.evs[e];
      && OthersStay(v, w, e)
      && w.evs[e] == if ev.timeout then ev.(timeout := false, interval := Timeout(0, None)) else ev
  }

  ghost predicate DidWakeUp(v: View, w: View, now: int) {
    && w.ctl == v.ctl && w.evs.Keys == v.evs.Keys
    && forall x | x in v.evs ::
      w.evs[x] == if x in v.heap && v.evs[x].deadline <= now
                  then v.evs[x].(inserted := false, active := true, later := false, timeout := false, timedOut := true)
                  else v.evs[x]
  }

  ghost predicate DidRunQueue(v: View, w: View, p: nat, io: bool, mem: bool, now: int) {
    if p >= |v.active| || |v.active[p]| == 0 then w == v
    else
      var e := v.active[p][0];
      && e in v.evs && w.ctl == v.ctl && w.evs.Keys == v.evs.Keys
      && if e !in v.ctl then OthersStay(v, w, e) && RanAs(v.evs[e], w.evs[e], now, io, mem)
         else exists k: nat ::
             k < |v.ctl| && v.ctl[k] == e && k < |v.common| && RanQueue(v.evs, w.evs, e, v.common[k], now)
  }

  ghost predicate DidStartTurn(v: View, w: View) {
    && w.ctl == v.ctl && w.evs.Keys == v.evs.Keys && w.laterQ == []
    && forall x | x in v.evs :: w.evs[x] == v.evs[x].(later := false, active := v.evs[x].active || v.evs[x].later)
  }

  /** One call at time `now`; what its caller may not do is skipped. */
  method Perform(b: EventBase, call: Call, now: int)
    requires b.Valid() && !Undefined(b, call)
    modifies b
    ensures b.Valid() && Lasting(old(b.evs), b.evs) && Secure(call, old(b.lost), old(b.adrift), b.lost, b.adrift)
    ensures Did(call, now, old(ViewOf(b)), ViewOf(b))
  {
    hide EventBase.ValidBut; hide ViewOf; hide Lasting; hide Undefined;
    hide DidAssign; hide DidCommon; hide DidAdd; hide DidDel; hide DidActive; hide DidLater;
    hide DidFinalize; hide DidRemoveTimer; hide DidWakeUp; hide DidRunQueue; hide DidStartTurn;
    match call
    case CallAssign(ev) => DoAssign(b, ev);
    case CallCommon(duration, memory) => DoCommon(b, duration, memory);
    case CallAdd(e, tv, ioOk, memory) => DoAdd(b, e, tv, ioOk, memory, now);
    case CallDel(e, ioOk) => DoDel(b, e, ioOk);
    case CallActive(e, t) => DoActive(b, e, t);
    case CallLater(e, t) => DoLater(b, e, t);
    case CallFinalize(e, ioOk) => DoFinalize(b, e, ioOk);
    case CallRemoveTimer(e) => DoRemoveTimer(b, e);
    case WakeUp => DoWakeUp(b, now);
    case RunQueue(p, io, mem) => DoRunQueue(b, p, io, mem, now);
    case StartTurn => DoStartTurn(b);
  }

  method DoAssign(b: EventBase, ev: Event)
    requires b.Valid()
    modifies b
    ensures b.Valid() && Lasting(old(b.evs), b.evs)
              && Secure(CallAssign(ev), old(b.lost), old(b.adrift), b.lost, b.adrift)
    ensures DidAssign(old(ViewOf(b)), ViewOf(b), ev)
  {
    hide EventBase.ValidBut;
    if ev == Idle(ev) && ev.pri < |b.active| && ev.interval == Timeout(0, None) {
      var e := Assign(b, ev);
    }
  }

  method DoCommon(b: EventBase, duration: int, memory: bool)
    requires b.Valid()
    modifies b
    ensures b.Valid() && Lasting(old(b.evs), b.evs)
              && Secure(CallCommon(duration, memory), old(b.lost), old(b.adrift), b.lost, b.adrift)
    ensures DidCommon(old(ViewOf(b)), ViewOf(b), duration, memory)
  {
    hide EventBase.ValidBut;
    if |b.active| > 0 {
      var k := InitCommonTimeout(b, duration, memory);
      if k.Some? {
        assert b.durations[k.value] in b.durations;
      }
    }
  }

  method DoAdd(b: EventBase, e: nat, tv: Option<Timeout>, ioOk: bool, memory: bool, now: int)
    requires b.Valid() && !Undefined(b, CallAdd(e, tv, ioOk, memory))
    modifies b
    ensures b.Valid() && Lasting(old(b.evs), b.evs)
              && Secure(CallAdd(e, tv, ioOk, memory), old(b.lost), old(b.adrift), b.lost, b.adrift)
    ensures DidAdd(old(ViewOf(b)), ViewOf(b), e, tv, ioOk, memory, now)
  {
    hide EventBase.ValidBut; hide AddedAs; hide Undefined;
    if Mine(b, e) && Timely(b, tv) {
      var res := AddLasting(b, e, tv, now, ioOk, memory);
    }
  }

  method DoDel(b: EventBase, e: nat, ioOk: bool)
    requires b.Valid() && !Undefined(b, CallDel(e, ioOk))
    modifies b
    ensures b.Valid() && Lasting(old(b.evs), b.evs)
              && Secure(CallDel(e, ioOk), old(b.lost), old(b.adrift), b.lost, b.adrift)
    ensures DidDel(old(ViewOf(b)), ViewOf(b), e, ioOk)
  {
    hide EventBase.ValidBut;
    if Mine(b, e) {
      LooseIff(b, e);
      var res := Delete(b, e, ioOk);
    }
  }

  method DoActive(b: EventBase, e: nat, t: bool)
    requires b.Valid()
    modifies b
    ensures b.Valid() && Lasting(old(b.evs), b.evs)
              && Secure(CallActive(e, t), old(b.lost), old(b.adrift), b.lost, b.adrift)
    ensures DidActive(old(ViewOf(b)), ViewOf(b), e, t)
  {
    hide EventBase.ValidBut;
    if Mine(b, e) {
      Activate(b, e, t);
    }
  }

  method DoLater(b: EventBase, e: nat, t: bool)
    requires b.Valid()
    modifies b
    ensures b.Valid() && Lasting(old(b.evs), b.evs)
              && Secure(CallLater(e, t), old(b.lost), old(b.adrift), b.lost, b.adrift)
    ensures DidLater(old(ViewOf(b)), ViewOf(b), e, t)
  {
    hide EventBase.ValidBut;
    if Mine(b, e) {
      ActivateLater(b, e, t);
    }
  }

  method DoFinalize(b: EventBase, e: nat, ioOk: bool)
    requires b.Valid() && !Undefined(b, CallFinalize(e, ioOk))
    modifies b
    ensures b.Valid() && Lasting(old(b.evs), b.evs)
              && Secure(CallFinalize(e, ioOk), old(b.lost), old(b.adrift), b.lost, b.adrift)
    ensures DidFinalize(old(ViewOf(b)), ViewOf(b), e, ioOk)
  {
    hide EventBase.ValidBut;
    if Mine(b, e) {
      LooseIff(b, e);
      Finalize(b, e, ioOk);
    }
  }

  method DoRemoveTimer(b: EventBase, e: nat)
    requires b.Valid() && !Undefined(b, CallRemoveTimer(e))
    modifies b
    ensures b.Valid() && Lasting(old(b.evs), b.evs)
              && Secure(CallRemoveTimer(e), old(b.lost), old(b.adrift), b.lost, b.adrift)
    ensures DidRemoveTimer(old(ViewOf(b)), ViewOf(b), e)
  {
    hide EventBase.ValidBut;
    if Mine(b, e) {
      LooseIff(b, e);
      RemoveTimer(b, e);
    }
  }

  method DoWakeUp(b: EventBase, now: int)
    requires b.Valid()
    modifies b
    ensures b.Valid() && Lasting(old(b.evs), b.evs) && Secure(WakeUp, old(b.lost), old(b.adrift), b.lost, b.adrift)
    ensures DidWakeUp(old(ViewOf(b)), ViewOf(b), now)
  {
    hide EventBase.ValidBut;
    TimeoutProcess(b, now);
  }

  method DoRunQueue(b: EventBase, p: nat, io: bool, mem: bool, now: int)
    requires b.Valid() && !Undefined(b, RunQueue(p, io, mem))
    modifies b
    ensures b.Valid() && Lasting(old(b.evs), b.evs)
              && Secure(RunQueue(p, io, mem), old(b.lost), old(b.adrift), b.lost, b.adrift)
    ensures DidRunQueue(old(ViewOf(b)), ViewOf(b), p, io, mem, now)
  {
    hide EventBase.ValidBut; hide RanAs; hide RanQueue; hide Undefined;
    if p < |b.active| && |b.active[p]| > 0 {
      RunFirstLasting(b, p, now, io, mem);
    }
  }

  method DoStartTurn(b: EventBase)
    requires b.Valid()
    modifies b
    ensures b.Valid() && Lasting(old(b.evs), b.evs) && Secure(StartTurn, old(b.lost), old(b.adrift), b.lost, b.adrift)
    ensures DidStartTurn(old(ViewOf(b)), ViewOf(b))
  {
    hide EventBase.ValidBut;
    MakeLaterActive(b);
  }

  method RunFirstLasting(b: EventBase, p: nat, now: int, ioOk: bool, memory: bool)
    requires b.Valid() && p < |b.active| && |b.active[p]| > 0 && !Undefined(b, RunQueue(p, ioOk, memory))
    modifies b
    ensures b.Valid() && Lasting(old(b.evs), b.evs) && (memory ==> b.lost <= old(b.lost))
    ensures b.adrift == old(b.adrift) && DidRunQueue(old(ViewOf(b)), ViewOf(b), p, ioOk, memory, now)
  {
    ghost var evs0 := b.evs;
    CtlLive(b);
    hide EventBase.ValidBut; hide Added; hide Repeats; hide AddFails; hide Undefined; hide RanAs;
    var e := RunFirst(b, p, now, ioOk, memory);
    if e !in b.ctl {
      RunLasts(evs0[e], now, ioOk, memory);
      LastingChange(b, evs0, e, Run(evs0[e], now, ioOk, memory));
    }
  }

  lemma RunLasts(ev: Event, now: int, ioOk: bool, memory: bool)
    ensures Run(ev, now, ioOk, memory).finalizing == ev.finalizing
  {
    var ev1 := ev.(active := false);
    if (ev.persist || ev.finalizing) && Repeats(ev) {
      AddedLasts(ev1, Some(Timeout(NextRun(ev1, now), ev.common)), true, now);
    }
    hide Added; hide NextRun; hide NeedsInsert; hide Repeats; hide AddFails;
  }

  method AddLasting(b: EventBase, e: nat, tv: Option<Timeout>, now: int, ioOk: bool, memory: bool) returns (res: int)
    requires b.Valid() && Mine(b, e) && Timely(b, tv) && !Undefined(b, CallAdd(e, tv, ioOk, memory))
    modifies b
    ensures b.Valid() && Lasting(old(b.evs), b.evs) && (memory ==> b.lost <= old(b.lost) && b.adrift <= old(b.adrift))
    ensures res == -1 <==>
            var ev := old(b.evs)[e];
            || ev.finalizing || (tv.Some? && !ev.timeout && !memory)
            || (ev.io && !ev.inserted && !ev.active && !ev.later && ev.fd >= 0 && !ioOk)
    ensures b.ctl == old(b.ctl) && b.evs.Keys == old(b.evs).Keys
    ensures forall x | x in b.evs && x !in b.ctl && x != e :: b.evs[x] == old(b.evs)[x]
    ensures if res == -1 then b.evs[e] == old(b.evs)[e] else AddedAs(old(b.evs)[e], b.evs[e], tv, false, now)
  {
    ghost var evs0 := b.evs;
    CtlLive(b);
    hide EventBase.ValidBut; hide Added; hide AddedAs; hide LostByAdd; hide Deadline; hide AddFails; hide Repeats;
    AddedLasts(evs0[e], tv, false, now);
    LooseIff(b, e);
    res := Add(b, e, tv, false, now, ioOk, memory);
    if res == 0 {
      OthersAre(evs0, b.evs, b.ctl, e, Added(evs0[e], tv, false, now));
      hide OnlyChanged;
      LastingChange(b, evs0, e, Added(evs0[e], tv, false, now));
    }
  }

  lemma OthersAre(evs0: Events, evs: Events, ctl: seq<nat>, e: nat, ev: Event)
    requires OnlyChanged(evs0, evs, ctl, e, ev)
    ensures evs.Keys == evs0.Keys && forall x | x in evs0 && x !in ctl && x != e :: evs[x] == evs0[x]
  {
  }

  lemma AddedLasts(ev: Event, tv: Option<Timeout>, absolute: bool, now: int)
    ensures Added(ev, tv, absolute, now).finalizing == ev.finalizing
  {
    var ev1 := ev.(inserted := ev.inserted || NeedsInsert(ev));
    hide NeedsInsert;
    assert ev1.finalizing == ev.finalizing;
    if tv.Some? {
      RearmedLasts(ev1, tv.value, absolute, now);
    }
    hide Rearmed;
  }

  lemma RearmedLasts(ev: Event, tv: Timeout, absolute: bool, now: int)
    ensures Rearmed(ev, tv, absolute, now).finalizing == ev.finalizing
  {
    hide Deadline;
    assert forall d: int :: Timed(ev, d, tv.common).finalizing == ev.finalizing;
    hide Timed;
  }

  /**
    Every run of calls, at whatever times, keeps the invariant and every finalization, up to
    a call that takes an event out of the heap which never got there, and each call does what
    it is for. In a run whose calls find room in the heap there is no such end, and no common
    queue gets lost.
  */
  method Execute(b: EventBase, calls: seq<Call>, times: seq<int>) returns (done: nat, ghost views: seq<View>)
    requires b.Valid() && |calls| == |times|
    modifies b
    ensures b.Valid() && Lasting(old(b.evs), b.evs)
    ensures |views| == done + 1 && views[0] == old(ViewOf(b)) && views[done] == ViewOf(b)
    ensures forall i | 0 <= i < done && i < |calls| :: Did(calls[i], times[i], views[i], views[i + 1])
    ensures done <= |calls| && (done < |calls| ==> Undefined(b, calls[done]))
    ensures (forall i | 0 <= i < |calls| :: Roomy(calls[i])) ==> b.lost <= old(b.lost) && b.adrift <= old(b.adrift)
    ensures (forall i | 0 <= i < |calls| :: Roomy(calls[i])) && old(b.adrift) == {} ==> done == |calls|
  {
    hide EventBase.ValidBut; hide Undefined; hide Roomy; hide Did; hide ViewOf;
    done := 0;
    views := [ViewOf(b)];
    while done < |calls|
      invariant |views| == done + 1 && views[0] == old(ViewOf(b)) && views[done] == ViewOf(b)
      invariant forall i | 0 <= i < done && i < |calls| :: Did(calls[i], times[i], views[i], views[i + 1])
      invariant done <= |calls| && b.Valid() && Lasting(old(b.evs), b.evs)
      invariant (forall i | 0 <= i < |calls| :: Roomy(calls[i])) ==> b.lost <= old(b.lost) && b.adrift <= old(b.adrift)
    {
      if Undefined(b, calls[done]) {
        NoneLoose(b, calls[done]);
        return;
      }
      Perform(b, calls[done], times[done]);
      views := views + [ViewOf(b)];
      done := done + 1;
    }
  }

  lemma NoneLoose(b: EventBase, call: Call)
    requires b.Valid() && Undefined(b, call)
    ensures b.adrift != {}
  {
    forall e | Loose(b, e) ensures e in b.adrift {
      LooseIff(b, e);
    }
    hide EventBase.ValidBut; hide Loose;
  }

  /**
    What follows from ignoring the result of the inner event_add: an event is moved from one
    common queue to another one that is empty. event_add says 0, but without room in the heap
    the event is overdue and still waiting after the loop has processed what is due, however
    late that is, and it is in a lost queue.
  */
  method AddCanStrand(
    b: EventBase, e: nat, k: nat, duration: int, now: int, late: int, room: set<nat>)
    returns (res: int)
    requires b.Valid() && Mine(b, e) && b.evs[e].timeout && b.evs[e].common.Some? && b.evs[e].common != Some(k)
    requires k < |b.common| && b.common[k] == [] && k < |b.ctl| && Asleep(b.evs, b.ctl[k])
    requires now + duration <= late
    modifies b
    ensures b.Valid() && res == 0 && e in b.evs && IsDue(b.evs[e], late)
    ensures b.evs[e] == Added(old(b.evs)[e], Some(Timeout(duration, Some(k))), false, now)
    ensures k in b.lost && Stranded(b.evs, e, b.lost, b.adrift)
    ensures forall x | x in b.evs && b.evs[x].timeout ::
              late < b.evs[x].deadline || Stranded(b.evs, x, b.lost, b.adrift)
  {
    assert k in LostByAdd(b.evs, b.common, b.ctl, b.lost, e, Timeout(duration, Some(k)), now + duration, false);
    hide EventBase.ValidBut; hide Added; hide OnlyChanged; hide Fired; hide LostByAdd; hide NeedsInsert; hide Asleep;
    CommonFacts(b, e);
    AddedTimes(b.evs[e], Timeout(duration, Some(k)), now);
    ghost var ev := Added(b.evs[e], Some(Timeout(duration, Some(k))), false, now);
    ghost var evs0 := b.evs;
    res := Add(b, e, Some(Timeout(duration, Some(k))), false, now, true, false);
    ChangedOne(evs0, b.evs, b.ctl, e, ev);
    ProcessDue(b, late, room);
  }

  /**
    What follows from ignoring the result of min_heap_push_: an event is moved from a common
    queue to a deadline of its own. event_add says 0, but without room the event is not in the
    heap; it too is overdue and still waiting, however late the loop looks.
  */
  method AddCanDrift(b: EventBase, e: nat, duration: int, now: int, late: int, room: set<nat>) returns (res: int)
    requires b.Valid() && Mine(b, e) && b.evs[e].timeout && b.evs[e].common.Some?
    requires now + duration <= late
    modifies b
    ensures b.Valid() && res == 0 && e in b.evs && IsDue(b.evs[e], late) && Loose(b, e)
    ensures b.evs[e] == Added(old(b.evs)[e], Some(Timeout(duration, None)), false, now)
    ensures forall x | x in b.evs && b.evs[x].timeout ::
              late < b.evs[x].deadline || Stranded(b.evs, x, b.lost, b.adrift)
  {
    hide EventBase.ValidBut; hide Added; hide OnlyChanged; hide Fired; hide LostByAdd; hide NeedsInsert; hide Repeats;
    CommonFacts(b, e);
    AddedTimes(b.evs[e], Timeout(duration, None), now);
    ghost var ev := Added(b.evs[e], Some(Timeout(duration, None)), false, now);
    ghost var evs0 := b.evs;
    res := Add(b, e, Some(Timeout(duration, None)), false, now, true, false);
    ChangedOne(evs0, b.evs, b.ctl, e, ev);
    ProcessDue(b, late, room);
    LooseIff(b, e);
  }

  lemma CommonFacts(b: EventBase, e: nat)
    requires b.Valid() && e in b.evs && b.evs[e].timeout && b.evs[e].common.Some?
    ensures !b.evs[e].finalizing && e !in b.adrift
  {
    b.QueueFacts(e);
  }

  lemma AddedTimes(ev: Event, tv: Timeout, now: int)
    ensures var r := Added(ev, Some(tv), false, now); r.timeout && r.deadline == now + tv.time && r.common == tv.common
  {
    hide NeedsInsert;
  }

  /**
    What the invariant says of each event in every reachable state: it is in exactly the
    queues its flags name, once in each, and in no two that exclude each other.
  */
  lemma {:induction false} Membership(b: EventBase, e: nat)
    requires b.Valid() && e in b.evs
    ensures forall p | 0 <= p < |b.active| ::
              multiset(b.active[p])[e] == if b.evs[e].active && b.evs[e].pri == p then 1 else 0
    ensures multiset(b.laterQ)[e] == if b.evs[e].later then 1 else 0
    ensures forall k | 0 <= k < |b.common| ::
              multiset(b.common[k])[e] == if b.evs[e].timeout && b.evs[e].common == Some(k) then 1 else 0
    ensures e in b.heap <==> b.evs[e].timeout && b.evs[e].common.None? && e !in b.adrift
    ensures e in b.fds <==> b.evs[e].inserted && b.evs[e].fd >= 0
    ensures !(b.evs[e].active && b.evs[e].later)
    ensures b.evs[e].finalizing ==> !b.evs[e].timeout && !b.evs[e].inserted
  {
    forall p | 0 <= p < |b.active|
      ensures multiset(b.active[p])[e] == if b.evs[e].active && b.evs[e].pri == p then 1 else 0
    {
      Once(b.active[p], e);
    }
    Once(b.laterQ, e);
    forall k | 0 <= k < |b.common|
      ensures multiset(b.common[k])[e] == if b.evs[e].timeout && b.evs[e].common == Some(k) then 1 else 0
    {
      Once(b.common[k], e);
    }
  }

  /** event_haveevents and the counters: the loop exits only when nothing is left to happen. */
  lemma {:induction false} CountsTell(b: EventBase)
    requires b.Valid()
    ensures b.countActive == 0 <==> forall e | e in b.evs :: !b.evs[e].active && !b.evs[e].later
    ensures b.count == 0 <==> forall e | e in b.evs && !b.evs[e].internal :: b.evs[e] == Idle(b.evs[e])
  {
    if b.countActive == 0 {
      NothingActive(b);
    } else {
      SomethingActive(b);
    }
    WeightZero(b.evs, b.limit);
    assert forall e | e in b.evs && !b.evs[e].internal :: Weight(b.evs[e]) == 0 <==> b.evs[e] == Idle(b.evs[e]);
  }

  lemma {:induction false} WeightZero(evs: Events, n: nat)
    ensures TotalWeight(evs, n) == 0 <==> forall e | e in evs && e < n :: Weight(evs[e]) == 0
    decreases n
  {
    if n > 0 {
      WeightZero(evs, n - 1);
    }
  }
}
