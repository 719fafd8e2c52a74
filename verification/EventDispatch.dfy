/**
  One turn of the event loop of event.c: how long it may sleep, which timeouts it finds
  due when it wakes, and what running an active event does to the base.
*/
module EventDispatch {
  import opened Basics
  import opened Lists
  import opened EventQueues
  import opened EventLoop
  import opened EventTimers

  // ------------------------------------------------------------------------
  // How long to sleep

  ghost predicate Least(evs: Events, heap: set<nat>, e: nat) {
    e in heap && e in evs && forall x | x in heap && x in evs :: evs[e].deadline <= evs[x].deadline
  }

  lemma {:induction false} LeastExists(evs: Events, heap: set<nat>)
    requires heap != {} && forall x | x in heap :: x in evs
    ensures exists e :: Least(evs, heap, e)
    decreases |heap|
  {
    var x :| x in heap;
    if heap == {x} {
      assert Least(evs, heap, x);
    } else {
      LeastExists(evs, heap - {x});
      var y :| Least(evs, heap - {x}, y);
      assert Least(evs, heap, if evs[x].deadline <= evs[y].deadline then x else y);
    }
  }

  lemma HeapKnown(b: EventBase)
    requires b.Queues()
    ensures forall x | x in b.heap :: x in b.evs && b.evs[x].timeout && b.evs[x].common.None? && x !in b.adrift
  {
  }

  /** min_heap_top_: the heap as an abstract priority queue */
  method Top(b: EventBase) returns (e: Option<nat>)
    requires b.Queues()
    ensures e.None? <==> b.heap == {}
    ensures e.Some? ==> Least(b.evs, b.heap, e.value)
  {
    if b.heap == {} {
      return None;
    }
    HeapKnown(b);
    LeastExists(b.evs, b.heap);
    hide EventBase.Queues;
    ghost var g :| Least(b.evs, b.heap, g);
    var x :| x in b.heap && x in b.evs && forall y | y in b.heap && y in b.evs ::
        b.evs[x].deadline <= b.evs[y].deadline;
    return Some(x);
  }

  // event_count_active says truly that nothing is active.
  lemma NothingActive(b: EventBase)
    requires b.Queues() && b.countActive == 0
    ensures forall x | x in b.evs :: !b.evs[x].active && !b.evs[x].later
  {
    NoLengths(b.active);
    forall x | x in b.evs ensures !b.evs[x].active && !b.evs[x].later {
      assert |b.active[b.evs[x].pri]| == 0;
      assert x !in b.active[b.evs[x].pri];
      assert x !in b.laterQ;
    }
  }

  // It also says truly that something is.
  lemma SomethingActive(b: EventBase)
    requires b.Queues() && b.countActive != 0
    ensures exists x :: x in b.evs && (b.evs[x].active || b.evs[x].later)
  {
    if b.laterQ != [] {
      assert b.laterQ[0] in b.laterQ;
    } else {
      var p := LengthsSome(b.active);
      assert b.active[p][0] in b.active[p];
    }
  }

  // The head of a common queue is its earliest member, and its internal event knows.
  lemma {:induction false} HeadFirst(evs: Events, common: seq<seq<nat>>, k: nat, x: nat)
    requires CommonOk(evs, common) && k < |common| && x in common[k] && x in evs
    ensures |common[k]| > 0 && common[k][0] in evs && evs[common[k][0]].deadline <= evs[x].deadline
  {
    var i :| 0 <= i < |common[k]| && common[k][i] == x;
    assert common[k][0] in common[k];
  }

  // Nobody will look at the timeout of event x: it is not in the heap where it should be,
  // or it waits in a common queue that is lost.
  ghost predicate Stranded(evs: Events, x: nat, lost: set<nat>, adrift: set<nat>)
    requires x in evs
  {
    x in adrift || (evs[x].timeout && evs[x].common.Some? && evs[x].common.value in lost)
  }

  /** A common queue with something in it is lost exactly if its internal event is in no queue. */
  lemma LostIff(b: EventBase, k: nat)
    requires b.Valid() && k < |b.common| && |b.common[k]| > 0
    ensures k < |b.ctl| && b.ctl[k] in b.evs
    ensures k in b.lost <==> Asleep(b.evs, b.ctl[k])
  {
    assert b.ctl[k] in b.evs;
  }

  /** No other deadline is earlier than those in the heap, unless an internal event is active. */
  lemma {:induction false} HeapSpeaksForAll(b: EventBase, t: int)
    requires b.Valid()
    requires forall k | 0 <= k < |b.ctl| && b.ctl[k] in b.evs :: !b.evs[b.ctl[k]].active
    requires forall x | x in b.heap && x in b.evs :: t <= b.evs[x].deadline
    ensures forall x | x in b.evs && b.evs[x].timeout && !Stranded(b.evs, x, b.lost, b.adrift) :: t <= b.evs[x].deadline
  {
    b.QueuesNow();
    forall x | x in b.evs && b.evs[x].timeout && !Stranded(b.evs, x, b.lost, b.adrift) ensures t <= b.evs[x].deadline {
      b.QueueFacts(x);
      if b.evs[x].common.Some? {
        var k := b.evs[x].common.value;
        assert x in b.common[k];
        HeadFirst(b.evs, b.common, k, x);
        assert Serves(b.evs, b.ctl[k], b.common[k][0]);
        b.QueueFacts(b.ctl[k]);
      }
    }
  }

  /** timeout_next, as the loop calls it: with no active callback */
  method TimeoutNext(b: EventBase, now: int) returns (wait: Option<int>)
    requires b.Valid() && b.countActive == 0
    ensures wait.None? <==> forall x | x in b.evs && b.evs[x].timeout :: Stranded(b.evs, x, b.lost, b.adrift)
    ensures wait.Some? ==> wait.value >= 0
    ensures wait.Some? ==> forall x | x in b.evs && b.evs[x].timeout && !Stranded(b.evs, x, b.lost, b.adrift) ::
              wait.value == 0 || now + wait.value <= b.evs[x].deadline
    ensures wait.Some? ==> exists x ::
              && x in b.evs && b.evs[x].timeout && !Stranded(b.evs, x, b.lost, b.adrift)
              && wait.value == if b.evs[x].deadline <= now then 0 else b.evs[x].deadline - now
  {
    NothingActive(b);
    b.QueuesNow();
    HeapKnown(b);
    var top := Top(b);
    if top.None? {
      forall x | x in b.evs && b.evs[x].timeout ensures Stranded(b.evs, x, b.lost, b.adrift) {
        HeapSpeaksForAll(b, b.evs[x].deadline + 1);
      }
      return None;
    }
    var e := top.value;
    HeapSpeaksForAll(b, b.evs[e].deadline);
    hide EventBase.Queues; hide Served; hide HeapOk; hide CommonOk; hide CtlOk; hide FlagsOk; hide Least;
    assert b.evs[e].timeout && !Stranded(b.evs, e, b.lost, b.adrift);
    if b.evs[e].deadline <= now {
      return Some(0);
    }
    return Some(b.evs[e].deadline - now);
  }

  /** The wait that event_base_loop chooses */
  method LoopWait(b: EventBase, now: int, nonblock: bool) returns (wait: Option<int>)
    requires b.Valid()
    ensures wait.Some? ==> wait.value >= 0
    ensures forall x | x in b.evs && b.evs[x].timeout && !Stranded(b.evs, x, b.lost, b.adrift) ::
              wait.Some? && (wait.value == 0 || now + wait.value <= b.evs[x].deadline)
    ensures nonblock || (exists x :: x in b.evs && (b.evs[x].active || b.evs[x].later)) ==> wait == Some(0)
    ensures !nonblock && (forall x | x in b.evs :: !b.evs[x].active && !b.evs[x].later) ==>
              if wait.None? then forall x | x in b.evs && b.evs[x].timeout :: Stranded(b.evs, x, b.lost, b.adrift)
              else exists x ::
                && x in b.evs && b.evs[x].timeout && !Stranded(b.evs, x, b.lost, b.adrift)
                && wait.value == if b.evs[x].deadline <= now then 0 else b.evs[x].deadline - now
  {
    if b.countActive == 0 {
      NothingActive(b);
    } else {
      SomethingActive(b);
    }
    hide EventBase.Queues; hide EventBase.ValidBut;
    if b.countActive == 0 && !nonblock {
      wait := TimeoutNext(b, now);
    } else {
      wait := Some(0);
    }
  }

  // ------------------------------------------------------------------------
  // What is due

  // The step that timeout_process and common_timeout_callback repeat.
  method Fire(b: EventBase, e: nat, k0: int)
    requires b.ValidBut(k0) && e in b.evs && b.evs[e].timeout && e !in b.adrift
    modifies b
    ensures b.ValidBut(k0) && b.ctl == old(b.ctl) && b.lost == old(b.lost) && b.adrift == old(b.adrift)
    ensures b.evs == old(b.evs)[e := Fired(old(b.evs)[e])]
    ensures var ev := b.evs[e]; ev.active && ev.timedOut && !ev.timeout && !ev.inserted && !ev.later
    ensures b.heap == old(b.heap) - {e} && b.common == DropCommon(old(b.common), old(b.evs)[e], e)
  {
    hide EventBase.Queues; hide Served; hide CommonOk; hide CtlOk; hide Rearmable; hide HeapOk; hide FlagsOk;
    hide ActiveOk; hide LaterOk; hide DropCommon;
    b.QueuesNow();
    b.QueueFacts(e);
    RearmNow(b.evs, |b.common|, e);
    ghost var ev, evs0, common0 := b.evs[e], b.evs, b.common;
    var res := b.EventDel(e, false, true);
    b.EventActive(e, true);
    UpdateTwice(evs0, e, Idle(ev), Fired(ev));
    if e in b.ctl {
      CtlPlain(evs0, b.ctl, e);
      DropNone(common0, ev, e);
      ServedKeep(evs0, common0, b.ctl, b.lost, k0, e, Fired(ev));
    } else {
      ServedDel(evs0, common0, b.ctl, b.lost, k0, e, Fired(ev));
    }
    RearmKeep(evs0, |common0|, e, Fired(ev));
  }

  lemma CtlPlain(evs: Events, ctl: seq<nat>, e: nat)
    requires CtlOk(evs, ctl) && e in ctl
    ensures e in evs && !evs[e].persist && !evs[e].finalizing && (evs[e].timeout ==> evs[e].common.None?)
  {
  }

  // The top of the heap, if its time has come.
  method DueTop(b: EventBase, now: int) returns (e: Option<nat>)
    requires b.Valid()
    ensures forall x | x in b.heap :: x in b.evs && x !in b.adrift
    ensures e.Some? ==> e.value in b.heap && b.evs[e.value].deadline <= now
    ensures e.None? ==> forall x | x in b.heap :: now < b.evs[x].deadline
  {
    b.HeapNow();
    e := Top(b);
    if e.Some? && now < b.evs[e.value].deadline {
      return None;
    }
  }

  /** timeout_process: exactly the due members of the heap fire */
  method TimeoutProcess(b: EventBase, now: int)
    requires b.Valid()
    modifies b
    ensures b.Valid() && b.ctl == old(b.ctl) && b.lost == old(b.lost) && b.adrift == old(b.adrift)
              && b.common == old(b.common) && b.evs.Keys == old(b.evs).Keys
    ensures forall x | x in b.evs ::
              b.evs[x] == if x in old(b.heap) && old(b.evs)[x].deadline <= now then Fired(old(b.evs)[x])
                  else old(b.evs)[x]
    ensures forall x | x in b.heap :: x in b.evs && x in old(b.heap) && now < b.evs[x].deadline
  {
    b.HeapNow();
    hide EventBase.ValidBut; hide EventBase.Queues; hide DropCommon; hide Fired;
    ghost var evs0, heap0 := b.evs, b.heap;
    var top := DueTop(b, now);
    while top.Some?
      invariant b.Valid() && b.ctl == old(b.ctl) && b.lost == old(b.lost) && b.adrift == old(b.adrift)
                && b.common == old(b.common)
      invariant FiredFrom(evs0, heap0, b.evs, b.heap, now)
      invariant top.None? ==> forall x | x in b.heap && x in b.evs :: now < b.evs[x].deadline
      invariant top.Some? ==>
                top.value in b.heap && top.value !in b.adrift && top.value in b.evs && b.evs[top.value].deadline <= now
      decreases |b.heap|
    {
      ghost var e := top.value;
      FiredMore(evs0, heap0, b.evs, b.heap, now, e);
      DropNone(b.common, b.evs[e], e);
      Fire(b, top.value, -1);
      top := DueTop(b, now);
    }
  }

  // Some due members of heap0 have fired, those that are no longer in the heap.
  ghost predicate FiredFrom(evs0: Events, heap0: set<nat>, evs: Events, heap: set<nat>, now: int) {
    && evs.Keys == evs0.Keys
    && (forall x | x in heap :: x in heap0 && x in evs0)
    && (forall x | x in heap0 :: x in evs0 && evs0[x].timeout && evs0[x].common.None?)
    && (forall x | x in evs0 :: evs[x] == if x in heap0 && x !in heap then Fired(evs0[x]) else evs0[x])
    && (forall x | x in heap0 && x !in heap :: evs0[x].deadline <= now)
  }

  lemma FiredMore(evs0: Events, heap0: set<nat>, evs: Events, heap: set<nat>, now: int, e: nat)
    requires FiredFrom(evs0, heap0, evs, heap, now) && e in heap && e in evs && evs[e].deadline <= now
    ensures evs[e].timeout && evs[e].common.None?
    ensures FiredFrom(evs0, heap0, evs[e := Fired(evs[e])], heap - {e}, now) && |heap - {e}| < |heap|
  {
  }

  // What the members of common queue k are not.
  lemma {:induction false} QueueMember(b: EventBase, k0: int, k: nat, x: nat)
    requires b.ValidBut(k0) && k < |b.common| && x in b.common[k]
    ensures k < |b.ctl| && x in b.evs && b.evs[x].timeout && b.evs[x].common == Some(k) && x !in b.ctl && x !in b.heap
    ensures |b.common[k]| > 0 && b.common[k][0] in b.evs && b.evs[b.common[k][0]].deadline <= b.evs[x].deadline
    ensures !b.evs[x].finalizing && x !in b.adrift
  {
    b.QueuesNow();
    CommonMembers(b.evs, b.common, k);
    CtlNotQueued(b.evs, b.ctl, b.common, k, x);
    b.QueueFacts(x);
    HeadFirst(b.evs, b.common, k, x);
    FlagsNow(b.evs, x);
  }

  lemma {:induction false} DropHead(b: EventBase, k0: int, k: nat)
    requires b.ValidBut(k0) && k < |b.common| && |b.common[k]| > 0
    ensures b.common[k][0] in b.evs
    ensures DropCommon(b.common, b.evs[b.common[k][0]], b.common[k][0]) == b.common[k := b.common[k][1..]]
    ensures b.common[k][0] !in b.common[k][1..]
  {
    QueueMember(b, k0, k, b.common[k][0]);
  }

  // The loop of common_timeout_callback: the due members of queue k fire.
  method FireQueue(b: EventBase, k: nat, now: int)
    requires b.ValidBut(k) && k < |b.common|
    modifies b
    ensures b.ValidBut(k) && b.ctl == old(b.ctl) && b.lost == old(b.lost) && b.adrift == old(b.adrift)
              && |b.common| == |old(b.common)| && b.evs.Keys == old(b.evs).Keys && b.heap == old(b.heap)
    ensures forall x | x in b.evs ::
              b.evs[x] == if x in old(b.common)[k] && old(b.evs)[x].deadline <= now then Fired(old(b.evs)[x])
                  else old(b.evs)[x]
    ensures |b.common[k]| > 0 ==> b.common[k][0] in b.evs && now < b.evs[b.common[k][0]].deadline
  {
    hide EventBase.ValidBut; hide DropCommon; hide Fired; hide QueueFrom;
    ghost var evs0, common0 := b.evs, b.common;
    StartQueue(b, k, now);
    var head := QueueTop(b, k, now);
    while head.Some?
      invariant b.ValidBut(k) && b.ctl == old(b.ctl) && b.lost == old(b.lost) && b.adrift == old(b.adrift)
                && |b.common| == |common0| && b.heap == old(b.heap)
      invariant QueueFrom(evs0, common0[k], b.evs, b.common[k], now)
      invariant head.None? ==> forall x | x in b.common[k] && x in b.evs :: now < b.evs[x].deadline
      invariant head.Some? ==>
                |b.common[k]| > 0 && head.value == b.common[k][0] && head.value in b.evs
                    && b.evs[head.value].deadline <= now
      decreases |b.common[k]|
    {
      QueueMember(b, k, k, head.value);
      DropHead(b, k, k);
      QueueMore(evs0, common0[k], b.evs, b.common[k], now);
      Fire(b, head.value, k);
      head := QueueTop(b, k, now);
    }
    QueueDone(evs0, common0[k], b.evs, b.common[k], now);
  }

  // Some due members of q0 have fired, those that are no longer in the queue.
  ghost predicate QueueFrom(evs0: Events, q0: seq<nat>, evs: Events, q: seq<nat>, now: int) {
    && evs.Keys == evs0.Keys
    && (forall x | x in q :: x in q0)
    && (forall x | x in q0 :: x in evs0)
    && (forall x | x in q0 && x !in q :: evs0[x].deadline <= now)
    && (forall x | x in evs0 :: evs[x] == if x in q0 && x !in q then Fired(evs0[x]) else evs0[x])
  }

  lemma StartQueue(b: EventBase, k: nat, now: int)
    requires b.ValidBut(k) && k < |b.common|
    ensures QueueFrom(b.evs, b.common[k], b.evs, b.common[k], now)
  {
    b.QueuesNow();
    CommonMembers(b.evs, b.common, k);
  }

  lemma {:induction false} QueueMore(evs0: Events, q0: seq<nat>, evs: Events, q: seq<nat>, now: int)
    requires QueueFrom(evs0, q0, evs, q, now) && |q| > 0 && q[0] !in q[1..] && q[0] in evs && evs[q[0]].deadline <= now
    ensures QueueFrom(evs0, q0, evs[q[0] := Fired(evs[q[0]])], q[1..], now)
  {
    assert q == [q[0]] + q[1..];
    hide Fired;
  }

  lemma {:induction false} QueueDone(evs0: Events, q0: seq<nat>, evs: Events, q: seq<nat>, now: int)
    requires QueueFrom(evs0, q0, evs, q, now) && forall x | x in q && x in evs :: now < evs[x].deadline
    ensures evs.Keys == evs0.Keys
    ensures forall x | x in evs :: evs[x] == if x in q0 && evs0[x].deadline <= now then Fired(evs0[x]) else evs0[x]
    ensures |q| > 0 ==> q[0] in evs && now < evs[q[0]].deadline
  {
    hide Fired;
    if |q| > 0 {
      assert q[0] in q;
    }
  }

  // The head of queue k, if its time has come.
  method QueueTop(b: EventBase, k: nat, now: int) returns (e: Option<nat>)
    requires b.ValidBut(k) && k < |b.common|
    ensures forall x | x in b.common[k] :: x in b.evs
    ensures e.Some? ==>
              |b.common[k]| > 0 && e.value == b.common[k][0] && e.value in b.evs && b.evs[e.value].deadline <= now
    ensures e.None? ==> forall x | x in b.common[k] :: now < b.evs[x].deadline
  {
    hide EventBase.ValidBut;
    forall x | x in b.common[k]
      ensures x in b.evs && b.common[k][0] in b.evs && b.evs[b.common[k][0]].deadline <= b.evs[x].deadline
    {
      QueueMember(b, k, k, x);
    }
    if |b.common[k]| == 0 {
      return None;
    }
    assert b.common[k][0] in b.common[k];
    if now < b.evs[b.common[k][0]].deadline {
      return None;
    }
    return Some(b.common[k][0]);
  }

  // How an internal event looks once its queue has been seen to: idle, or waiting.
  ghost predicate Resting(c0: Event, c: Event, now: int) {
    c == c0 || (now < c.deadline && c == Timed(c0, c.deadline, None))
  }

  // The queues that are lost once queue k has been seen to: this one, if somebody is left in
  // it and its internal event finds no place in the heap.
  ghost predicate LostAfterRun(b: EventBase, lost0: set<nat>, k: nat, memory: bool)
    reads b
  {
    k < |b.common| && b.lost == if |b.common[k]| > 0 && !memory then lost0 + {k} else lost0 - {k}
  }

  /** common_timeout_callback: the due members of its queue fire, and it waits for the next */
  method CommonCallback(b: EventBase, k: nat, now: int, memory: bool)
    requires b.ValidBut(k) && k < |b.common| && k < |b.ctl| && Asleep(b.evs, b.ctl[k])
    modifies b
    ensures b.Valid() && b.ctl == old(b.ctl) && |b.common| == |old(b.common)| && b.evs.Keys == old(b.evs).Keys
    ensures LostAfterRun(b, old(b.lost), k, memory) && b.adrift == old(b.adrift)
    ensures k < |b.ctl| && b.ctl[k] in b.evs && Resting(old(b.evs)[b.ctl[k]], b.evs[b.ctl[k]], now)
    ensures forall x | x in b.evs && x != b.ctl[k] ::
              b.evs[x] == if x in old(b.common)[k] && old(b.evs)[x].deadline <= now then Fired(old(b.evs)[x])
                  else old(b.evs)[x]
    ensures forall x | x in b.heap :: x in old(b.heap) || (x == b.ctl[k] && now < b.evs[x].deadline)
    ensures b.evs[b.ctl[k]] != old(b.evs)[b.ctl[k]] ==> now < b.evs[b.ctl[k]].deadline
  {
    CtlNotMember(b, k);
    hide EventBase.ValidBut; hide Fired; hide Resting; hide LostAfterRun;
    FireQueue(b, k, now);
    Reschedule(b, k, now, memory);
  }

  // The end of common_timeout_callback.
  method Reschedule(b: EventBase, k: nat, now: int, memory: bool)
    requires b.ValidBut(k) && k < |b.common| && k < |b.ctl| && Asleep(b.evs, b.ctl[k])
    requires |b.common[k]| > 0 ==> b.common[k][0] in b.evs && now < b.evs[b.common[k][0]].deadline
    modifies b
    ensures b.Valid() && b.ctl == old(b.ctl) && |b.common| == |old(b.common)| && b.evs.Keys == old(b.evs).Keys
    ensures LostAfterRun(b, old(b.lost), k, memory) && b.adrift == old(b.adrift)
    ensures Resting(old(b.evs)[b.ctl[k]], b.evs[b.ctl[k]], now)
    ensures forall x | x in b.evs && x != b.ctl[k] :: b.evs[x] == old(b.evs)[x]
    ensures forall x | x in b.heap :: x in old(b.heap) || (x == b.ctl[k] && now < b.evs[x].deadline)
    ensures b.evs[b.ctl[k]] != old(b.evs)[b.ctl[k]] ==> now < b.evs[b.ctl[k]].deadline
  {
    hide EventBase.ValidBut; hide Timed;
    if |b.common[k]| > 0 {
      RestsUntil(b, k, now);
      b.Schedule(k, memory);
    } else {
      Regain(b, k);
    }
  }

  lemma RestsUntil(b: EventBase, k: nat, now: int)
    requires k < |b.common| && |b.common[k]| > 0 && b.ValidBut(k)
    requires b.common[k][0] in b.evs && now < b.evs[b.common[k][0]].deadline
    ensures k < |b.ctl| && b.ctl[k] in b.evs
    ensures var c, d := b.evs[b.ctl[k]], b.evs[b.common[k][0]].deadline;
            Resting(c, Timed(c, d, None), now) && Timed(c, d, None).deadline == d
  {
    b.ScheduleFacts(k);
  }

  lemma CtlNotMember(b: EventBase, k: nat)
    requires b.ValidBut(k) && k < |b.common|
    ensures k < |b.ctl| && b.ctl[k] in b.evs && b.ctl[k] !in b.common[k]
  {
    assert b.ctl[k] in b.ctl;
    if b.ctl[k] in b.common[k] {
      QueueMember(b, k, k, b.ctl[k]);
    }
  }

  // An empty queue is not lost.
  method Regain(b: EventBase, k: nat)
    requires b.ValidBut(k) && k < |b.common| && b.common[k] == []
    modifies b`lost
    ensures b.Valid() && b.lost == old(b.lost) - {k}
  {
    hide Rearmable; hide Served; hide ActiveOk; hide LaterOk; hide HeapOk; hide CommonOk; hide FdOk; hide FlagsOk;
    hide CtlOk; hide TotalWeight; hide Lengths;
    ServedEmpty(b.evs, b.common, b.ctl, b.lost, k);
    b.Forget(k);
  }

  lemma ServedEmpty(evs: Events, common: seq<seq<nat>>, ctl: seq<nat>, lost: set<nat>, k: nat)
    requires Served(evs, common, ctl, lost, k) && k < |common| && common[k] == []
    ensures Served(evs, common, ctl, lost - {k}, -1)
  {
  }

  // Losing its internal event, only queue k goes unserved.
  lemma {:induction false} ServedWithout(
    evs: Events, common: seq<seq<nat>>, ctl: seq<nat>, lost: set<nat>, k: nat, ev: Event)
    requires CtlOk(evs, ctl) && CommonOk(evs, common) && Served(evs, common, ctl, lost, -1) && k < |common|
    requires ev.deadline == evs[ctl[k]].deadline && !ev.active && !ev.timeout
    ensures Served(evs[ctl[k] := ev], common, ctl, lost, k)
  {
    forall l: nat | l < |common| && l != k && l !in lost && |common[l]| > 0
      ensures Serves(evs[ctl[k] := ev], ctl[l], common[l][0])
    {
      assert Serves(evs, ctl[l], common[l][0]);
      assert ctl[l] != ctl[k];
    }
  }

  // The internal event of queue k leaves the active queue to be run.
  method TakeInternal(b: EventBase, k: nat)
    requires b.Valid() && k < |b.ctl| && b.ctl[k] in b.evs
    modifies b
    ensures b.ValidBut(k) && b.ctl == old(b.ctl) && b.lost == old(b.lost) && b.adrift == old(b.adrift)
              && b.common == old(b.common) && k < |b.common| && b.heap == old(b.heap) - {b.ctl[k]}
    ensures b.evs == old(b.evs)[b.ctl[k] := Idle(old(b.evs)[b.ctl[k]])]
  {
    hide EventBase.Queues; hide CommonOk; hide CtlOk; hide Rearmable; hide HeapOk; hide FlagsOk; hide ActiveOk;
    hide LaterOk; hide DropCommon;
    b.QueuesNow();
    assert b.ctl[k] in b.ctl;
    CtlPlain(b.evs, b.ctl, b.ctl[k]);
    b.QueueFacts(b.ctl[k]);
    ghost var c, evs0, common0 := b.evs[b.ctl[k]], b.evs, b.common;
    ServedWithout(evs0, common0, b.ctl, b.lost, k, Idle(c));
    RearmKeep(evs0, |common0|, b.ctl[k], Idle(c));
    if c.timeout {
      DropNone(common0, c, b.ctl[k]);
    }
    var res := b.EventDel(b.ctl[k], false, true);
  }

  // Running the internal event of queue k, which is not persistent.
  method RunInternal(b: EventBase, k: nat, now: int, memory: bool)
    requires b.Valid() && k < |b.ctl| && b.ctl[k] in b.evs
    modifies b
    ensures b.Valid() && b.ctl == old(b.ctl) && |b.common| == |old(b.common)| && b.evs.Keys == old(b.evs).Keys
              && k < |b.common|
    ensures LostAfterRun(b, old(b.lost), k, memory) && b.adrift == old(b.adrift)
    ensures RanQueue(old(b.evs), b.evs, b.ctl[k], old(b.common)[k], now)
    ensures !b.evs[b.ctl[k]].active
    ensures forall x | x in b.heap :: x in old(b.heap) || (x == b.ctl[k] && now < b.evs[x].deadline)
    ensures b.ctl[k] in b.heap ==> now < b.evs[b.ctl[k]].deadline
    ensures old(b.ctl[k] !in b.common[k])
  {
    hide EventBase.ValidBut; hide Fired; hide LostAfterRun;
    TakeInternal(b, k);
    CtlNotMember(b, k);
    CommonCallback(b, k, now, memory);
    HeapOnly(b, b.ctl[k]);
  }

  lemma HeapOnly(b: EventBase, e: nat)
    requires b.Valid() && e in b.evs
    ensures e in b.heap <==> b.evs[e].timeout && b.evs[e].common.None? && e !in b.adrift
  {
    b.QueueFacts(e);
  }

  predicate IsActive(evs: Events, e: nat) {
    e in evs && evs[e].active
  }

  ghost function ActiveInternals(evs: Events, ctl: seq<nat>): (s: set<nat>) {
    set k: nat | k < |ctl| && IsActive(evs, ctl[k])
  }

  // An event is as it was, or it was due, not stranded, and has fired.
  ghost predicate DueOnly(evs0: Events, evs: Events, ctl: seq<nat>, lost: set<nat>, adrift: set<nat>, now: int) {
    && evs.Keys == evs0.Keys
    && forall x | x in evs0 && x !in ctl ::
      evs[x] == evs0[x] || (IsDue(evs0[x], now) && !Stranded(evs0, x, lost, adrift) && evs[x] == Fired(evs0[x]))
  }

  // The queues lost since hold nothing that is due, and had no memory.
  ghost predicate LostClean(evs: Events, lost0: set<nat>, lost: set<nat>, adrift: set<nat>, room: set<nat>, now: int) {
    && lost0 <= lost
    && (forall k | k in lost && k !in lost0 :: k !in room)
    && (forall x | x in evs && Stranded(evs, x, lost, adrift) && !Stranded(evs, x, lost0, adrift) ::
        now < evs[x].deadline)
  }

  /**
    At one fixed time, timeout_process and then the callbacks of the common queues that
    are active, in whatever order the loop comes to them, fire exactly the events that
    are due and not in a lost queue: no more, no fewer, wherever they waited. Only queues
    without room in the heap for their internal event, those not in `room`, get lost.
  */
  method ProcessDue(b: EventBase, now: int, room: set<nat>)
    requires b.Valid()
    modifies b
    ensures b.Valid() && b.ctl == old(b.ctl) && |b.common| == |old(b.common)| && b.evs.Keys == old(b.evs).Keys
    ensures b.adrift == old(b.adrift)
    ensures forall x | x in b.evs && x !in b.ctl ::
              b.evs[x] == if IsDue(old(b.evs)[x], now)
                  && !Stranded(old(b.evs), x, old(b.lost), old(b.adrift)) then Fired(old(b.evs)[x]) else old(b.evs)[x]
    ensures forall x | x in b.evs && b.evs[x].timeout ::
              now < b.evs[x].deadline || Stranded(b.evs, x, old(b.lost), old(b.adrift))
    ensures old(b.lost) <= b.lost && forall k | k in b.lost && k !in old(b.lost) :: k !in room
  {
    hide EventBase.ValidBut;
    ghost var evs0, lost0 := b.evs, b.lost;
    b.HeapNow();
    TimeoutProcess(b, now);
    while exists k: nat :: k < |b.ctl| && IsActive(b.evs, b.ctl[k])
      invariant b.Valid() && b.ctl == old(b.ctl) && |b.common| == |old(b.common)| && b.adrift == old(b.adrift)
      invariant DueOnly(evs0, b.evs, b.ctl, lost0, b.adrift, now)
                && LostClean(b.evs, lost0, b.lost, b.adrift, room, now)
      invariant forall x | x in b.heap && x in b.evs :: now < b.evs[x].deadline
      decreases |ActiveInternals(b.evs, b.ctl)|
    {
      var k: nat :| k < |b.ctl| && IsActive(b.evs, b.ctl[k]);
      RunOne(b, k, now, room, evs0, lost0);
    }
    HeapSpeaksForAll(b, now + 1);
    forall x | x in b.evs && x !in b.ctl
      ensures b.evs[x] == if IsDue(evs0[x], now) && !Stranded(evs0, x, lost0, b.adrift) then Fired(evs0[x]) else evs0[x]
    {
      assert b.evs[x] == evs0[x] ==> !IsDue(evs0[x], now) || Stranded(evs0, x, lost0, b.adrift);
    }
  }

  method RunOne(b: EventBase, k: nat, now: int, room: set<nat>, ghost evs0: Events, ghost lost0: set<nat>)
    requires b.Valid() && k < |b.ctl| && IsActive(b.evs, b.ctl[k])
    requires DueOnly(evs0, b.evs, b.ctl, lost0, b.adrift, now) && LostClean(b.evs, lost0, b.lost, b.adrift, room, now)
    requires forall x | x in b.heap && x in b.evs :: now < b.evs[x].deadline
    modifies b
    ensures b.Valid() && b.ctl == old(b.ctl) && |b.common| == |old(b.common)| && b.adrift == old(b.adrift)
    ensures DueOnly(evs0, b.evs, b.ctl, lost0, b.adrift, now) && LostClean(b.evs, lost0, b.lost, b.adrift, room, now)
    ensures forall x | x in b.heap && x in b.evs :: now < b.evs[x].deadline
    ensures |ActiveInternals(b.evs, b.ctl)| < |ActiveInternals(old(b.evs), b.ctl)|
  {
    ghost var evs1, common1, heap1, ctl, lost1 := b.evs, b.common, b.heap, b.ctl, b.lost;
    InternalsApart(b, k);
    QueueWhole(b, k);
    hide EventBase.ValidBut; hide EventBase.Queues; hide Fired; hide ActiveInternals; hide DueOnly; hide LostClean;
    hide LostAfterRun; hide RanQueue;
    RunInternal(b, k, now, k in room);
    FewerActive(evs1, b.evs, ctl, common1[k], k, now);
    StillDueOnly(evs0, evs1, b.evs, ctl, lost0, lost1, b.adrift, common1[k], k, now, room);
    StillClean(b, evs1, common1[k], k, lost0, lost1, now, room);
    HeapStill(evs1, b.evs, ctl[k], common1[k], heap1, b.heap, now);
  }

  // What is in the heap is still not due.
  lemma {:induction false} HeapStill(
    evs1: Events, evs: Events, c: nat, q: seq<nat>, heap1: set<nat>, heap: set<nat>, now: int)
    requires RanQueue(evs1, evs, c, q, now) && (forall x | x in q :: x !in heap1)
    requires forall x | x in heap1 && x in evs1 :: now < evs1[x].deadline
    requires forall x | x in heap :: x in heap1 || (x == c && x in evs && now < evs[x].deadline)
    requires c in heap ==> c in evs && now < evs[c].deadline
    ensures forall x | x in heap && x in evs :: now < evs[x].deadline
  {
    hide Fired;
  }

  // What running internal event k does to the others: the due members of its queue fire.
  ghost predicate RanQueue(evs1: Events, evs: Events, c: nat, q: seq<nat>, now: int) {
    && evs.Keys == evs1.Keys
    && forall x | x in evs && x != c :: evs[x] == if x in q && evs1[x].deadline <= now then Fired(evs1[x]) else evs1[x]
  }

  lemma {:induction false} FewerActive(evs1: Events, evs: Events, ctl: seq<nat>, q: seq<nat>, k: nat, now: int)
    requires k < |ctl| && ctl[k] in evs && RanQueue(evs1, evs, ctl[k], q, now)
    requires IsActive(evs1, ctl[k]) && !evs[ctl[k]].active
    requires forall l: nat | l < |ctl| :: ctl[l] !in q && (l != k ==> ctl[l] != ctl[k])
    ensures |ActiveInternals(evs, ctl)| < |ActiveInternals(evs1, ctl)|
  {
    hide Fired;
    var s0, s1 := ActiveInternals(evs1, ctl), ActiveInternals(evs, ctl);
    assert k in s0 && k !in s1;
    forall l | l in s1 ensures l in s0 {
      assert ctl[l] != ctl[k] && ctl[l] !in q;
    }
    Smaller(s1, s0, k);
  }

  lemma {:induction false} StillDueOnly(
    evs0: Events, evs1: Events, evs: Events, ctl: seq<nat>, lost0: set<nat>, lost1: set<nat>, adrift: set<nat>,
    q: seq<nat>, k: nat, now: int, room: set<nat>)
    requires k < |ctl| && RanQueue(evs1, evs, ctl[k], q, now) && DueOnly(evs0, evs1, ctl, lost0, adrift, now)
    requires LostClean(evs1, lost0, lost1, adrift, room, now) && k !in lost1
    requires forall x | x in q :: x in evs1 && evs1[x].timeout && evs1[x].common == Some(k) && x !in adrift
    ensures DueOnly(evs0, evs, ctl, lost0, adrift, now)
  {
    forall x | x in evs0 && x !in ctl
      ensures evs[x] == evs0[x]
                || (IsDue(evs0[x], now) && !Stranded(evs0, x, lost0, adrift) && evs[x] == Fired(evs0[x]))
    {
      assert x != ctl[k];
      if x in q {
        assert evs1[x].timeout;
      }
    }
  }

  // If queue k is lost now, what is left in it is not due.
  lemma {:induction false} StillClean(
    b: EventBase, evs1: Events, q: seq<nat>, k: nat, lost0: set<nat>, lost1: set<nat>, now: int, room: set<nat>)
    requires b.Valid() && k < |b.ctl| && RanQueue(evs1, b.evs, b.ctl[k], q, now) && k !in lost1
    requires LostClean(evs1, lost0, lost1, b.adrift, room, now) && LostAfterRun(b, lost1, k, k in room)
    requires forall x | x in evs1 && evs1[x].timeout && evs1[x].common == Some(k) :: x in q
    ensures LostClean(b.evs, lost0, b.lost, b.adrift, room, now)
  {
    b.QueuesNow();
    CtlPlain(b.evs, b.ctl, b.ctl[k]);
    hide EventBase.ValidBut; hide ActiveOk; hide LaterOk; hide HeapOk; hide CommonOk; hide FlagsOk; hide CtlOk;
    forall x | x in b.evs && Stranded(b.evs, x, b.lost, b.adrift) && !Stranded(b.evs, x, lost0, b.adrift)
      ensures now < b.evs[x].deadline
    {
      assert x != b.ctl[k];
    }
  }

  // The queue of an active internal event is not lost, and q holds all of it.
  lemma QueueWhole(b: EventBase, k: nat)
    requires b.Valid() && k < |b.ctl| && IsActive(b.evs, b.ctl[k])
    ensures k !in b.lost && k < |b.common|
    ensures forall x | x in b.common[k] ::
              x in b.evs && b.evs[x].timeout && b.evs[x].common == Some(k) && x !in b.adrift
    ensures forall x | x in b.evs && b.evs[x].timeout && b.evs[x].common == Some(k) :: x in b.common[k]
  {
    b.QueuesNow();
    forall x | x in b.common[k] ensures x !in b.adrift {
      b.QueueFacts(x);
    }
  }

  lemma Smaller(s1: set<nat>, s0: set<nat>, k: nat)
    requires s1 <= s0 && k in s0 && k !in s1
    ensures |s1| < |s0|
  {
    SubsetSize(s1, s0 - {k});
  }

  lemma InternalsApart(b: EventBase, k: nat)
    requires b.Valid() && k < |b.ctl|
    ensures |b.ctl| == |b.common| && b.ctl[k] in b.evs
    ensures forall l: nat | l < |b.ctl| && l != k :: b.ctl[l] != b.ctl[k]
    ensures forall x | x in b.common[k] :: x in b.evs && x !in b.ctl && x !in b.heap && b.evs[x].timeout
    ensures forall l: nat | l < |b.ctl| :: b.ctl[l] !in b.common[k]
  {
    forall x | x in b.common[k] ensures x in b.evs && x !in b.ctl && x !in b.heap && b.evs[x].timeout {
      QueueMember(b, -1, k, x);
    }
    assert b.ctl[k] in b.ctl;
  }
}
