/**
  The queues of an event base (event.c, the event_queue_* functions): the active
  queues by priority, the active-later queue, the timeout heap, the common-timeout
  lists and the fd lists, each mirrored by a flag in the event and by two counters.

  Events are named by numbers; `evs` holds the fields of each. The heap is the set of
  the events in it.
*/
module EventQueues {
  import opened Basics
  import opened Lists

  /** A struct timeval: microseconds, and the common-timeout index its high bits may carry. */
  datatype Timeout = Timeout(time: int, common: Option<nat>)

  /** struct event: how it was set up, its EVLIST_* flags, and its deadline. */
  datatype Event = Event(
    pri: nat, internal: bool, io: bool, fd: int, persist: bool,
    inserted: bool, active: bool, later: bool, timeout: bool, finalizing: bool,
    timedOut: bool,             // EV_TIMEOUT is in ev_res
    deadline: int,              // ev_timeout, in microseconds
    common: Option<nat>,        // the common-timeout index ev_timeout carries
    interval: Timeout)          // ev_io_timeout, how soon a persistent event comes again

  type Events = map<nat, Event>

  ghost predicate ActiveOk(evs: Events, active: seq<seq<nat>>) {
    && (forall e | e in evs :: evs[e].pri < |active|)
    && forall p | 0 <= p < |active| ::
      && NoDup(active[p])
      && forall e :: e in active[p] <==> e in evs && evs[e].active && evs[e].pri == p
  }

  ghost predicate LaterOk(evs: Events, laterQ: seq<nat>) {
    NoDup(laterQ) && forall e :: e in laterQ <==> e in evs && evs[e].later
  }

  ghost predicate HeapOk(evs: Events, heap: set<nat>) {
    forall e :: e in heap <==> e in evs && evs[e].timeout && evs[e].common.None?
  }

  ghost predicate Sorted(evs: Events, q: seq<nat>) {
    forall i, j | 0 <= i < j < |q| && q[i] in evs && q[j] in evs :: evs[q[i]].deadline <= evs[q[j]].deadline
  }

  ghost predicate CommonOk(evs: Events, common: seq<seq<nat>>) {
    && (forall e | e in evs && evs[e].timeout && evs[e].common.Some? :: evs[e].common.value < |common|)
    && forall k | 0 <= k < |common| ::
      && NoDup(common[k]) && Sorted(evs, common[k])
      && forall e :: e in common[k] <==> e in evs && evs[e].timeout && evs[e].common == Some(k)
  }

  ghost predicate FdOk(evs: Events, fds: set<nat>) {
    forall e :: e in fds <==> e in evs && evs[e].inserted && evs[e].fd >= 0
  }

  ghost predicate FlagsOk(evs: Events) {
    forall e | e in evs ::
      && !(evs[e].active && evs[e].later)
      && (evs[e].finalizing ==> !evs[e].timeout && !evs[e].inserted)
      && (evs[e].inserted ==> evs[e].io)
  }

  // Memberships of one event in the queues that event_count counts.
  function Weight(ev: Event): (n: nat) {
    if ev.internal then 0
    else (if ev.inserted then 1 else 0) + (if ev.active then 1 else 0) + (if ev.later then 1
        else 0) + (if ev.timeout then 1 else 0)
  }

  // The memberships of all events numbered below n.
  ghost function TotalWeight(evs: Events, n: nat): (w: nat) {
    if n == 0 then 0 else TotalWeight(evs, n - 1) + if n - 1 in evs then Weight(evs[n - 1]) else 0
  }

  // Changing one event changes the total by the change of its weight.
  lemma {:induction false} WeightUpdate(evs: Events, e: nat, ev: Event, n: nat)
    requires e in evs
    ensures TotalWeight(evs[e := ev], n) == TotalWeight(evs, n) + if e < n then Weight(ev) - Weight(evs[e]) else 0
    decreases n
  {
    if n > 0 {
      WeightUpdate(evs, e, ev, n - 1);
    }
  }

  // ------------------------------------------------------------------------
  // What a change of one event leaves alone

  lemma KeepActive(evs: Events, e: nat, ev: Event, active: seq<seq<nat>>)
    requires ActiveOk(evs, active) && e in evs && ev.active == evs[e].active && ev.pri == evs[e].pri
    ensures ActiveOk(evs[e := ev], active)
  {
  }

  lemma KeepLater(evs: Events, e: nat, ev: Event, laterQ: seq<nat>)
    requires LaterOk(evs, laterQ) && e in evs && ev.later == evs[e].later
    ensures LaterOk(evs[e := ev], laterQ)
  {
  }

  lemma KeepTimeouts(evs: Events, e: nat, ev: Event, heap: set<nat>, common: seq<seq<nat>>)
    requires HeapOk(evs, heap) && CommonOk(evs, common) && e in evs
    requires ev.timeout == evs[e].timeout
    requires ev.timeout ==> ev.common == evs[e].common && ev.deadline == evs[e].deadline
    ensures HeapOk(evs[e := ev], heap) && CommonOk(evs[e := ev], common)
  {
    var evs' := evs[e := ev];
    forall k | 0 <= k < |common| ensures Sorted(evs', common[k]) {
      assert Sorted(evs, common[k]);
      forall i, j | 0 <= i < j < |common[k]| && common[k][i] in evs' && common[k][j] in evs'
        ensures evs'[common[k][i]].deadline <= evs'[common[k][j]].deadline
      {
        assert common[k][i] in common[k] && common[k][j] in common[k];
      }
    }
  }

  lemma KeepFds(evs: Events, e: nat, ev: Event, fds: set<nat>)
    requires FdOk(evs, fds) && e in evs && ev.inserted == evs[e].inserted && ev.fd == evs[e].fd
    ensures FdOk(evs[e := ev], fds)
  {
  }

  lemma KeepFlags(evs: Events, e: nat, ev: Event)
    requires FlagsOk(evs) && !(ev.active && ev.later)
    requires ev.finalizing ==> !ev.timeout && !ev.inserted
    requires ev.inserted ==> ev.io
    ensures FlagsOk(evs[e := ev])
  {
  }

  // ------------------------------------------------------------------------
  // The queues themselves

  lemma {:induction false} ActivePut(evs: Events, e: nat, active: seq<seq<nat>>)
    requires ActiveOk(evs, active) && e in evs && !evs[e].active
    ensures var ev, p := evs[e].(active := true, later := false), evs[e].pri;
            ActiveOk(evs[e := ev], active[p := active[p] + [e]])
  {
    var p := evs[e].pri;
    var active' := active[p := active[p] + [e]];
    var evs' := evs[e := evs[e].(active := true, later := false)];
    forall x ensures x in active'[p] <==> x in evs' && evs'[x].active && evs'[x].pri == p {
      assert x in active'[p] <==> x in active[p] || x == e;
    }
  }

  lemma {:induction false} ActiveDrop(evs: Events, e: nat, active: seq<seq<nat>>)
    requires ActiveOk(evs, active) && e in evs && evs[e].active
    ensures e in active[evs[e].pri]
    ensures ActiveOk(evs[e := evs[e].(active := false)], active[evs[e].pri := Without(active[evs[e].pri], e)])
  {
    WithoutProps(active[evs[e].pri], e);
  }

  lemma {:induction false} LaterPut(evs: Events, e: nat, laterQ: seq<nat>)
    requires LaterOk(evs, laterQ) && e in evs && !evs[e].later
    ensures LaterOk(evs[e := evs[e].(later := true)], laterQ + [e])
  {
    var evs' := evs[e := evs[e].(later := true)];
    forall x ensures x in laterQ + [e] <==> x in evs' && evs'[x].later {
      assert x in laterQ + [e] <==> x in laterQ || x == e;
    }
  }

  lemma {:induction false} LaterDrop(evs: Events, e: nat, laterQ: seq<nat>)
    requires LaterOk(evs, laterQ) && e in evs && evs[e].later
    ensures e in laterQ
    ensures LaterOk(evs[e := evs[e].(later := false)], Without(laterQ, e))
  {
    WithoutProps(laterQ, e);
  }

  lemma {:induction false} HeapPut(evs: Events, e: nat, heap: set<nat>, common: seq<seq<nat>>, deadline: int)
    requires HeapOk(evs, heap) && CommonOk(evs, common) && e in evs && !evs[e].timeout
    ensures var ev := evs[e].(timeout := true, deadline := deadline, common := None);
            HeapOk(evs[e := ev], heap + {e}) && CommonOk(evs[e := ev], common)
  {
    var evs' := evs[e := evs[e].(timeout := true, deadline := deadline, common := None)];
    forall k | 0 <= k < |common| ensures Sorted(evs', common[k]) {
      assert e !in common[k];
      SortedElsewhere(evs, evs', common[k]);
    }
  }

  lemma {:induction false} SortedElsewhere(evs: Events, evs': Events, q: seq<nat>)
    requires Sorted(evs, q)
    requires forall x | x in q :: x in evs && x in evs' && evs[x] == evs'[x]
    ensures Sorted(evs', q)
  {
    forall i, j | 0 <= i < j < |q| && q[i] in evs' && q[j] in evs' ensures evs'[q[i]].deadline <= evs'[q[j]].deadline {
      assert q[i] in q && q[j] in q;
    }
  }

  lemma {:induction false} TimeoutDrop(evs: Events, e: nat, heap: set<nat>, common: seq<seq<nat>>)
    requires HeapOk(evs, heap) && CommonOk(evs, common) && e in evs && evs[e].timeout
    ensures evs[e].common.None? ==> e in heap && HeapOk(evs[e := evs[e].(timeout := false)], heap - {e})
    ensures evs[e].common.None? ==> CommonOk(evs[e := evs[e].(timeout := false)], common)
    ensures evs[e].common.Some? ==>
              var k := evs[e].common.value;
              && k < |common| && e in common[k]
              && HeapOk(evs[e := evs[e].(timeout := false)], heap)
              && CommonOk(evs[e := evs[e].(timeout := false)], common[k := Without(common[k], e)])
  {
    var evs' := evs[e := evs[e].(timeout := false)];
    var k0: int := if evs[e].common.Some? then evs[e].common.value else -1;
    forall k | 0 <= k < |common| && k != k0 ensures Sorted(evs', common[k]) {
      assert e !in common[k];
      SortedElsewhere(evs, evs', common[k]);
    }
    if k0 >= 0 {
      WithoutProps(common[k0], e);
      SortedWithout(evs, common[k0], e);
      SortedElsewhere(evs, evs', Without(common[k0], e));
    }
  }

  lemma {:induction false} SortedWithout(evs: Events, q: seq<nat>, e: nat)
    requires Sorted(evs, q) && NoDup(q) && e in q && forall x | x in q :: x in evs
    ensures Sorted(evs, Without(q, e))
    decreases |q|
  {
    var t := q[1..];
    assert forall i | 0 <= i < |t| :: t[i] == q[i + 1];
    assert Sorted(evs, t) && NoDup(t);
    if q[0] != e {
      assert q == [q[0]] + t;
      SortedWithout(evs, t, e);
      WithoutProps(t, e);
      var r := Without(t, e);
      forall j | 0 <= j < |r| && r[j] in evs ensures evs[q[0]].deadline <= evs[r[j]].deadline {
        assert r[j] in t;
        var m :| 0 <= m < |t| && t[m] == r[j];
        assert q[0] in q && q[m + 1] == r[j];
      }
      SortedCons(evs, q[0], r);
    }
  }

  lemma {:induction false} SortedCons(evs: Events, x: nat, r: seq<nat>)
    requires x in evs && Sorted(evs, r) && forall j | 0 <= j < |r| && r[j] in evs ::
              evs[x].deadline <= evs[r[j]].deadline
    ensures Sorted(evs, [x] + r)
  {
    var q := [x] + r;
    assert forall i | 0 < i < |q| :: q[i] == r[i - 1];
  }

  // TAILQ_INSERT_AFTER and TAILQ_INSERT_HEAD: e becomes element number i.
  function InsertAt(q: seq<nat>, i: nat, e: nat): (r: seq<nat>)
    requires i <= |q|
  {
    q[..i] + [e] + q[i..]
  }

  lemma {:induction false} InsertAtProps(q: seq<nat>, i: nat, e: nat)
    requires i <= |q|
    ensures |InsertAt(q, i, e)| == |q| + 1
    ensures InsertAt(q, i, e)[0] == if i == 0 then e else q[0]
    ensures forall x :: x in InsertAt(q, i, e) <==> x in q || x == e
  {
    assert q == q[..i] + q[i..];
  }

  // Put e behind everything that is due no later.
  lemma {:induction false} CommonPut(
    evs: Events, e: nat, heap: set<nat>, common: seq<seq<nat>>, k: nat, deadline: int, i: nat)
    requires HeapOk(evs, heap) && CommonOk(evs, common) && e in evs && !evs[e].timeout && k < |common|
              && i <= |common[k]|
    requires i > 0 ==> common[k][i - 1] in evs && evs[common[k][i - 1]].deadline <= deadline
    requires i < |common[k]| ==> common[k][i] in evs && deadline <= evs[common[k][i]].deadline
    ensures var ev := evs[e].(timeout := true, deadline := deadline, common := Some(k));
            HeapOk(evs[e := ev], heap) && CommonOk(evs[e := ev], common[k := InsertAt(common[k], i, e)])
  {
    hide InsertAt;
    var ev := evs[e].(timeout := true, deadline := deadline, common := Some(k));
    var q0 := common[k];
    var q, evs' := InsertAt(q0, i, e), evs[e := ev];
    var common' := common[k := q];
    forall l | 0 <= l < |common| && l != k ensures Sorted(evs', common'[l]) {
      assert e !in common[l];
      SortedElsewhere(evs, evs', common[l]);
    }
    assert e !in q0;
    InsertAtProps(q0, i, e);
    PutDistinct(q0, e, i);
    PutSorted(evs, evs', q0, e, i);
  }

  lemma {:induction false} InsertAtIndex(q: seq<nat>, i: nat, e: nat)
    requires i <= |q|
    ensures |InsertAt(q, i, e)| == |q| + 1
    ensures forall a {:trigger InsertAt(q, i, e)[a]} | 0 <= a < |InsertAt(q, i, e)| ::
              InsertAt(q, i, e)[a] == if a < i then q[a] else if a == i then e else q[a - 1]
  {
  }

  lemma {:induction false} PutDistinct(q0: seq<nat>, e: nat, i: nat)
    requires NoDup(q0) && e !in q0 && i <= |q0|
    ensures NoDup(InsertAt(q0, i, e))
  {
    InsertAtIndex(q0, i, e);
    hide InsertAt;
  }

  lemma {:induction false} PutSorted(evs: Events, evs': Events, q0: seq<nat>, e: nat, i: nat)
    requires Sorted(evs, q0) && i <= |q0| && e in evs'
    requires forall x | x in q0 :: x in evs && x in evs' && evs[x] == evs'[x]
    requires i > 0 ==> evs[q0[i - 1]].deadline <= evs'[e].deadline
    requires i < |q0| ==> evs'[e].deadline <= evs[q0[i]].deadline
    ensures Sorted(evs', InsertAt(q0, i, e))
  {
    InsertAtIndex(q0, i, e);
    SortedElsewhere(evs, evs', q0);
    assert forall a | 0 <= a < |q0| :: q0[a] in q0;
    hide InsertAt; hide Sorted;
    InsertedSorted(evs', q0, InsertAt(q0, i, e), e, i);
  }

  lemma {:induction false} InsertedSorted(evs: Events, q0: seq<nat>, q: seq<nat>, e: nat, i: nat)
    requires Sorted(evs, q0) && e in evs && i <= |q0| && |q| == |q0| + 1
    requires forall a | 0 <= a < |q0| :: q0[a] in evs
    requires forall a {:trigger q[a]} | 0 <= a < |q| :: q[a] == if a < i then q0[a] else if a == i then e else q0[a - 1]
    requires i > 0 ==> evs[q0[i - 1]].deadline <= evs[e].deadline
    requires i < |q0| ==> evs[e].deadline <= evs[q0[i]].deadline
    ensures Sorted(evs, q)
  {
    forall a, b | 0 <= a < b < |q| && q[a] in evs && q[b] in evs ensures evs[q[a]].deadline <= evs[q[b]].deadline {
      if a == i {
        assert b - 1 == i || evs[q0[i]].deadline <= evs[q0[b - 1]].deadline;
      } else if b == i {
        assert a == i - 1 || evs[q0[a]].deadline <= evs[q0[i - 1]].deadline;
      } else {
        var a', b' := if a < i then a else a - 1, if b < i then b else b - 1;
        assert q[a] == q0[a'] && q[b] == q0[b'] && a' < b';
      }
    }
  }
}
