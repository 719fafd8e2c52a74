/**
  Whole runs of both epoll backends: whatever events are added and deleted between
  dispatches, the coalescing backend leaves the kernel as the immediate one does.
*/
module EpollRuns {
  import opened EpollTable
  import opened Changelists

  datatype Action =
    | AddEvent(ev: Ev)
    | DelEvent(ev: Ev)
    | DoDispatch
    // the fd is closed, reopened or re-registered behind the library's back
    | Meddle(fd: int, to: Kinds)

  type Io = map<int, Ctx>

  // What an action does to the event lists and counts.
  ghost function IoAfter(io: Io, a: Action): Io {
    match a
    case AddEvent(ev) =>
      if ev.fd < 0 || Holds(io, ev) then io
      else if TooMany(WithSlot(io, ev.fd)[ev.fd], ev) then WithSlot(io, ev.fd)
      else WithEvent(io, ev)
    case DelEvent(ev) => if Holds(io, ev) then WithoutEvent(io, ev) else io
    case _ => io
  }

  ghost function IoRun(acts: seq<Action>): Io {
    if |acts| == 0 then map[] else IoAfter(IoRun(acts[..|acts| - 1]), acts[|acts| - 1])
  }

  // The indices of the changelist have no part in it.
  lemma SameIoAfter(a: Io, b: Io, act: Action)
    requires SameIo(a, b)
    ensures SameIo(IoAfter(a, act), IoAfter(b, act))
  {
    match act {
      case AddEvent(ev) =>
        assert Holds(a, ev) <==> Holds(b, ev);
      case DelEvent(ev) =>
        assert Holds(a, ev) <==> Holds(b, ev);
        if Holds(a, ev) {
          assert a[ev.fd].events == b[ev.fd].events;
        }
      case DoDispatch =>
      case Meddle(_, _) =>
    }
  }

  lemma SameIoTrans(a: Io, b: Io, c: Io)
    requires SameIo(a, b) && SameIo(b, c)
    ensures SameIo(a, c)
  {
    forall fd | fd in a ensures a[fd].(idxplus1 := 0) == c[fd].(idxplus1 := 0) {
      assert a[fd].(idxplus1 := 0) == b[fd].(idxplus1 := 0);
    }
  }

  // ------------------------------------------------------------------------
  // Which events are listed

  lemma {:induction false} RunOk(acts: seq<Action>)
    ensures IoOk(IoRun(acts))
    decreases |acts|
  {
    if |acts| > 0 {
      RunOk(acts[..|acts| - 1]);
      OkAfter(IoRun(acts[..|acts| - 1]), acts[|acts| - 1]);
    }
  }

  lemma {:induction false} OkAfter(io: Io, a: Action)
    requires IoOk(io)
    ensures IoOk(IoAfter(io, a))
  {
    match a {
      case AddEvent(ev) =>
        if ev.fd >= 0 && !Holds(io, ev) {
          SlotOk(io, ev.fd);
          var ctx := WithSlot(io, ev.fd)[ev.fd];
          assert CtxOk(ev.fd, ctx);
          if !TooMany(ctx, ev) {
            AddedCtxOk(ev.fd, ctx, ev);
            hide CtxOk; hide AddedCtx;
            assert IoOk(WithSlot(io, ev.fd));
          }
        }
      case DelEvent(ev) =>
        if Holds(io, ev) {
          RemovedCtxOk(ev.fd, io[ev.fd], ev);
          hide CtxOk; hide RemovedCtx;
        }
      case DoDispatch =>
      case Meddle(_, _) =>
    }
  }

  // An add of the event at the end of this run goes through.
  ghost predicate Accepted(acts: seq<Action>, ev: Ev) {
    ev.fd >= 0 && !Crowded(EventsOf(IoRun(acts), ev.fd), ev.kinds)
  }

  // The last that was done about the event is an add that went through.
  ghost predicate AddedLast(acts: seq<Action>, ev: Ev) {
    exists i :: 0 <= i < |acts| && acts[i] == AddEvent(ev) && Accepted(acts[..i], ev)
                && forall j | i < j < |acts| :: acts[j] != DelEvent(ev)
  }

  /** An event is on the list of its fd if and only if the last thing done about it was its add. */
  lemma {:induction false} ListedIff(acts: seq<Action>, ev: Ev)
    ensures Holds(IoRun(acts), ev) <==> AddedLast(acts, ev)
    decreases |acts|
  {
    if |acts| > 0 {
      var n := |acts| - 1;
      ListedIff(acts[..n], ev);
      RunOk(acts[..n]);
      HoldsAfter(IoRun(acts[..n]), acts[n], ev);
      assert IoRun(acts) == IoAfter(IoRun(acts[..n]), acts[n]);
      hide Holds; hide IoAfter; hide IoOk; hide IoRun; hide Accepted;
      AddedLastNext(acts, ev);
      hide AddedLast;
      assert Accepted(acts[..n], ev) <==> ev.fd >= 0 && !Crowded(EventsOf(IoRun(acts[..n]), ev.fd), ev.kinds) by {
        AcceptedIs(acts[..n], ev);
      }
    }
  }

  /** A kind is asked for on an fd if and only if some event that was added last asks for it. */
  lemma {:induction false} AskedIff(acts: seq<Action>, fd: int, kind: Kind)
    ensures Has(Wanted(IoRun(acts), fd), kind) <==>
              exists ev: Ev :: ev.fd == fd && Has(ev.kinds, kind) && AddedLast(acts, ev)
  {
    var io := IoRun(acts);
    var evs := EventsOf(io, fd);
    RunOk(acts);
    WantedCounts(io, fd, kind);
    CountSome(evs, kind);
    EventsHere(io, fd);
    hide IoOk; hide IoRun; hide Wanted; hide Has; hide Holds; hide AddedLast; hide EventsOf; hide Count;
    if i :| 0 <= i < |evs| && Has(evs[i].kinds, kind) {
      HoldsIs(io, evs[i]);
      ListedIff(acts, evs[i]);
    }
    if ev: Ev :| ev.fd == fd && Has(ev.kinds, kind) && AddedLast(acts, ev) {
      ListedIff(acts, ev);
      HoldsIs(io, ev);
    }
  }

  lemma WantedCounts(io: Io, fd: int, kind: Kind)
    requires IoOk(io)
    ensures Has(Wanted(io, fd), kind) <==> Count(EventsOf(io, fd), kind) > 0
  {
    if fd in io {
      assert CtxOk(fd, io[fd]);
    }
  }

  lemma EventsHere(io: Io, fd: int)
    requires IoOk(io)
    ensures forall i | 0 <= i < |EventsOf(io, fd)| :: EventsOf(io, fd)[i].fd == fd
  {
    if fd in io {
      assert CtxOk(fd, io[fd]);
    }
  }

  lemma {:induction false} CountSome(evs: seq<Ev>, kind: Kind)
    ensures Count(evs, kind) > 0 <==> exists i :: 0 <= i < |evs| && Has(evs[i].kinds, kind)
    decreases |evs|
  {
    if |evs| > 0 {
      CountSome(evs[1..], kind);
      if i :| 0 <= i < |evs[1..]| && Has(evs[1..][i].kinds, kind) {
        assert Has(evs[i + 1].kinds, kind);
      }
      if i :| 0 <= i < |evs| && Has(evs[i].kinds, kind) {
        assert i == 0 || Has(evs[1..][i - 1].kinds, kind);
      }
    }
  }

  lemma AcceptedIs(acts: seq<Action>, ev: Ev)
    ensures Accepted(acts, ev) <==> ev.fd >= 0 && !Crowded(EventsOf(IoRun(acts), ev.fd), ev.kinds)
  {
  }

  lemma {:induction false} AddedLastNext(acts: seq<Action>, ev: Ev)
    requires |acts| > 0
    ensures var prev, a := acts[..|acts| - 1], acts[|acts| - 1];
            AddedLast(acts, ev) <==>
              || (a == AddEvent(ev) && Accepted(prev, ev))
              || (a != DelEvent(ev) && AddedLast(prev, ev))
  {
    hide Accepted;
    var n := |acts| - 1;
    var prev, a := acts[..n], acts[n];
    forall i | 0 <= i < n ensures prev[..i] == acts[..i] && prev[i] == acts[i] {
    }
    if a != DelEvent(ev) && AddedLast(prev, ev) {
      var i :| 0 <= i < n && prev[i] == AddEvent(ev) && Accepted(prev[..i], ev)
               && forall j | i < j < n :: prev[j] != DelEvent(ev);
      assert acts[i] == AddEvent(ev) && Accepted(acts[..i], ev);
    }
    if AddedLast(acts, ev) {
      var i :| 0 <= i < |acts| && acts[i] == AddEvent(ev) && Accepted(acts[..i], ev)
               && forall j | i < j < |acts| :: acts[j] != DelEvent(ev);
      if i < n {
        assert prev[i] == AddEvent(ev) && Accepted(prev[..i], ev);
      }
    }
  }

  // One action and one event.
  lemma {:induction false} HoldsAfter(io: Io, a: Action, ev: Ev)
    requires IoOk(io)
    ensures Holds(IoAfter(io, a), ev) <==>
              || (a == AddEvent(ev) && ev.fd >= 0 && !Crowded(EventsOf(io, ev.fd), ev.kinds))
              || (a != DelEvent(ev) && Holds(io, ev))
  {
    HoldsIs(io, ev);
    HoldsIs(IoAfter(io, a), ev);
    match a {
      case AddEvent(x) =>
        if x.fd >= 0 && !Holds(io, x) {
          CrowdedIs(io, x);
          hide IoOk; hide Crowded;
          if TooMany(WithSlot(io, x.fd)[x.fd], x) {
            SameIoSelf(WithSlot(io, x.fd));
            SlotIs(io, WithSlot(io, x.fd), x.fd);
          } else {
            SameIoSelf(WithEvent(io, x));
            AddedIs(io, WithEvent(io, x), x);
          }
        }
      case DelEvent(x) =>
        if Holds(io, x) {
          SameIoSelf(WithoutEvent(io, x));
          RemovedIs(io, WithoutEvent(io, x), x);
          hide IoOk;
          CutKeeps(EventsOf(io, x.fd), EventsOf(WithoutEvent(io, x), x.fd), x, ev);
        }
      case DoDispatch =>
      case Meddle(_, _) =>
    }
  }

  lemma HoldsIs(io: Io, ev: Ev)
    ensures Holds(io, ev) <==> ev in EventsOf(io, ev.fd)
  {
  }

  lemma CutKeeps(a: seq<Ev>, b: seq<Ev>, x: Ev, ev: Ev)
    requires CutOut(a, b, x)
    ensures ev in b <==> ev in a && ev != x
  {
    var j :| 0 <= j < |a| && a[j] == x && b == a[..j] + a[j + 1..];
    assert a == a[..j] + [a[j]] + a[j + 1..];
  }

  // What an action leaves of the fds whose registration may be wrong.
  ghost predicate DisturbedAfter(
    lazy: bool, io0: Io, changes0: seq<Change>, disturbed0: set<int>, io: Io, disturbed: set<int>, a: Action)
  {
    match a
    case Meddle(fd, _) => disturbed == disturbed0 + {fd}
    case DoDispatch => disturbed == set fd | fd in disturbed0 && (!lazy || Pending(io0, changes0, fd).Idle())
    case _ => disturbed == set fd | fd in disturbed0 && (lazy || Wanted(io, fd) == Wanted(io0, fd))
  }

  // What an action leaves pending.
  ghost predicate PendingAfter(io0: Io, changes0: seq<Change>, io: Io, changes: seq<Change>, a: Action) {
    if a.DoDispatch? then changes == []
    else forall fd :: Pending(io, changes, fd) == Asked(Pending(io0, changes0, fd), Wanted(io0, fd), Wanted(io, fd))
  }

  /**
    One action on one base. Allocation never fails here. A system call about an fd puts
    right whatever was done to it from outside: at once, or at the dispatch.
  */
  method Act(base: EventBase, a: Action)
    requires base.Valid()
    modifies base
    ensures base.Valid() && SameIo(base.io, IoAfter(old(base.io), a))
    ensures DisturbedAfter(
              base.useChangelist, old(base.io), old(base.changes), old(base.disturbed), base.io, base.disturbed, a)
    ensures base.useChangelist ==> PendingAfter(old(base.io), old(base.changes), base.io, base.changes, a)
  {
    hide IoOk; hide Linked; hide CoherentBut; hide PendingAfter; hide IoAfter; hide DisturbedAfter;
    match a {
      case AddEvent(ev) =>
        ActAdd(base, ev);
      case DelEvent(ev) =>
        ActDel(base, ev);
      case DoDispatch =>
        ActDispatch(base);
      case Meddle(fd, to) =>
        PendingKept(base.io, base.changes, a);
        SameIoSelf(base.io);
        assert IoAfter(base.io, a) == base.io by { IoKept(base.io, a); }
        ghost var disturbed0 := base.disturbed;
        base.Disturb(fd, to);
        assert DisturbedAfter(base.useChangelist, base.io, base.changes, disturbed0, base.io, base.disturbed, a) by {
          MeddledOne(base.useChangelist, base.io, base.changes, disturbed0, fd, to);
        }
    }
  }

  lemma PendingKept(io: Io, changes: seq<Change>, a: Action)
    requires !a.DoDispatch?
    ensures PendingAfter(io, changes, io, changes, a)
  {
    forall fd ensures Pending(io, changes, fd) == Asked(Pending(io, changes, fd), Wanted(io, fd), Wanted(io, fd)) {
      AskedSame(Pending(io, changes, fd), Wanted(io, fd));
    }
  }

  lemma AskedSame(ch: Change, w: Kinds)
    ensures Asked(ch, w, w) == ch
  {
  }

  lemma IoKept(io: Io, a: Action)
    requires a.DoDispatch? || a.Meddle?
    ensures IoAfter(io, a) == io
  {
  }

  lemma MeddledOne(lazy: bool, io: Io, changes: seq<Change>, disturbed: set<int>, fd: int, to: Kinds)
    ensures DisturbedAfter(lazy, io, changes, disturbed, io, disturbed + {fd}, Meddle(fd, to))
  {
  }

  // A call about one fd: it alone may be put right, and only if what it asks for changes.
  lemma {:induction false} DisturbedOne(
    lazy: bool, io0: Io, changes0: seq<Change>, disturbed0: set<int>, io: Io, disturbed: set<int>, a: Action, fd: int)
    requires a.AddEvent? || a.DelEvent?
    requires forall f | f != fd :: Wanted(io, f) == Wanted(io0, f)
    requires disturbed == if !lazy && Wanted(io, fd) != Wanted(io0, fd) then disturbed0 - {fd} else disturbed0
    ensures DisturbedAfter(lazy, io0, changes0, disturbed0, io, disturbed, a)
  {
    var after := set f | f in disturbed0 && (lazy || Wanted(io, f) == Wanted(io0, f));
    assert disturbed == after;
  }

  // The same for what is pending.
  lemma {:induction false} PendingOne(
    io0: Io, changes0: seq<Change>, size0: nat, io: Io, changes: seq<Change>, size: nat, a: Action, fd: int,
    entry: bool, ch: Change)
    requires a.AddEvent? || a.DelEvent?
    requires forall f | f != fd :: Wanted(io, f) == Wanted(io0, f)
    requires Booked(io0, changes0, size0, io, changes, size, fd, entry, ch)
    requires ch == Asked(Pending(io0, changes0, fd), Wanted(io0, fd), Wanted(io, fd))
    ensures PendingAfter(io0, changes0, io, changes, a)
  {
    hide Asked; hide Pending; hide Wanted;
    forall f ensures Pending(io, changes, f) == Asked(Pending(io0, changes0, f), Wanted(io0, f), Wanted(io, f)) {
      AskedSame(Pending(io0, changes0, f), Wanted(io0, f));
    }
  }

  lemma {:induction false} WantedElsewhere(a: Io, b: Io, ctx: Ctx, fd: int)
    requires SameIo(b, a[fd := ctx])
    ensures forall f | f != fd :: Wanted(b, f) == Wanted(a, f)
    ensures Wanted(b, fd) == ctx.Wanted()
  {
    forall f | f != fd ensures Wanted(b, f) == Wanted(a, f) {
      if f in a {
        SameWanted(b, a[fd := ctx], f);
      }
    }
    SameWanted(b, a[fd := ctx], fd);
  }

  method ActAdd(base: EventBase, ev: Ev)
    requires base.Valid()
    modifies base
    ensures base.Valid() && SameIo(base.io, IoAfter(old(base.io), AddEvent(ev)))
    ensures DisturbedAfter(
              base.useChangelist, old(base.io), old(base.changes), old(base.disturbed), base.io, base.disturbed,
                  AddEvent(ev))
    ensures base.useChangelist ==> PendingAfter(old(base.io), old(base.changes), base.io, base.changes, AddEvent(ev))
  {
    hide IoOk; hide Linked; hide CoherentBut; hide PendingAfter; hide DisturbedAfter; hide AddedCtx; hide Booked;
    hide Pending; hide Asked;
    ghost var io0, changes0, size0, disturbed0 := base.io, base.changes, base.changesSize, base.disturbed;
    PendingKept(io0, changes0, AddEvent(ev));
    SameIoSelf(io0);
    if ev.fd in base.io && ev in base.io[ev.fd].events {
      DisturbedOne(base.useChangelist, io0, changes0, disturbed0, io0, disturbed0, AddEvent(ev), ev.fd);
      return;
    }
    var r := base.EvmapAdd(ev, true);
    if ev.fd >= 0 {
      AddedWants(io0, base.io, changes0, ev, r);
    } else {
      AskedSame(Pending(io0, changes0, ev.fd), Wanted(io0, ev.fd));
    }
    if base.useChangelist {
      PendingOne(io0, changes0, size0, base.io, base.changes, base.changesSize, AddEvent(ev), ev.fd, r == 1,
                  PendingAdd(io0, changes0, ev, r));
    }
    DisturbedOne(base.useChangelist, io0, changes0, disturbed0, base.io, base.disturbed, AddEvent(ev), ev.fd);
  }

  lemma {:induction false} AddedWants(io0: Io, io: Io, changes0: seq<Change>, ev: Ev, r: int)
    requires -1 <= r <= 1
    requires r >= 0 ==> SameIo(io, WithEvent(io0, ev))
    requires r == -1 ==> SameIo(io, WithSlot(io0, ev.fd))
    requires r >= 0 ==> r == if Union(Wanted(io0, ev.fd), ev.kinds) == Wanted(io0, ev.fd) then 0 else 1
    ensures forall f | f != ev.fd :: Wanted(io, f) == Wanted(io0, f)
    ensures r == 1 <==> Wanted(io, ev.fd) != Wanted(io0, ev.fd)
    ensures PendingAdd(io0, changes0, ev, r)
              == Asked(Pending(io0, changes0, ev.fd), Wanted(io0, ev.fd), Wanted(io, ev.fd))
  {
    hide Pending;
    var slot := WithSlot(io0, ev.fd);
    if r >= 0 {
      WantedElsewhere(slot, io, AddedCtx(slot[ev.fd], ev), ev.fd);
    } else {
      assert slot == slot[ev.fd := slot[ev.fd]];
      WantedElsewhere(slot, io, slot[ev.fd], ev.fd);
    }
    AskedSame(Pending(io0, changes0, ev.fd), Wanted(io0, ev.fd));
    if r == 1 {
      AskedMore(Pending(io0, changes0, ev.fd), Wanted(io0, ev.fd), ev.kinds);
    }
  }

  lemma AskedMore(ch: Change, w: Kinds, more: Kinds)
    ensures Asked(ch, w, Union(w, more)) == AddTo(ch, Minus(more, w))
  {
  }

  lemma AskedLess(ch: Change, w: Kinds, to: Kinds)
    requires Minus(to, w).Empty()
    ensures Asked(ch, w, to) == DelFrom(ch, Minus(w, to))
  {
  }

  method ActDel(base: EventBase, ev: Ev)
    requires base.Valid()
    modifies base
    ensures base.Valid() && SameIo(base.io, IoAfter(old(base.io), DelEvent(ev)))
    ensures DisturbedAfter(
              base.useChangelist, old(base.io), old(base.changes), old(base.disturbed), base.io, base.disturbed,
                  DelEvent(ev))
    ensures base.useChangelist ==> PendingAfter(old(base.io), old(base.changes), base.io, base.changes, DelEvent(ev))
  {
    hide IoOk; hide Linked; hide CoherentBut; hide PendingAfter; hide DisturbedAfter; hide RemovedCtx; hide Booked;
    hide Pending; hide Asked;
    ghost var io0, changes0, size0, disturbed0 := base.io, base.changes, base.changesSize, base.disturbed;
    PendingKept(io0, changes0, DelEvent(ev));
    SameIoSelf(io0);
    if !(ev.fd in base.io && ev in base.io[ev.fd].events) {
      DisturbedOne(base.useChangelist, io0, changes0, disturbed0, io0, disturbed0, DelEvent(ev), ev.fd);
      return;
    }
    RemovedLess(io0[ev.fd], ev);
    var r := base.EvmapDel(ev, true);
    WantedElsewhere(io0, base.io, RemovedCtx(io0[ev.fd], ev), ev.fd);
    if base.useChangelist {
      AskedLess(Pending(io0, changes0, ev.fd), Wanted(io0, ev.fd), Wanted(base.io, ev.fd));
      PendingOne(io0, changes0, size0, base.io, base.changes, base.changesSize, DelEvent(ev), ev.fd, r == 1,
                 Asked(Pending(io0, changes0, ev.fd), Wanted(io0, ev.fd), Wanted(base.io, ev.fd)));
    }
    DisturbedOne(base.useChangelist, io0, changes0, disturbed0, base.io, base.disturbed, DelEvent(ev), ev.fd);
  }

  lemma RemovedLess(ctx: Ctx, ev: Ev)
    requires ev in ctx.events
    ensures Minus(RemovedCtx(ctx, ev).Wanted(), ctx.Wanted()).Empty()
  {
  }

  method ActDispatch(base: EventBase)
    requires base.Valid()
    modifies base
    ensures base.Valid() && SameIo(base.io, IoAfter(old(base.io), DoDispatch))
    ensures DisturbedAfter(
              base.useChangelist, old(base.io), old(base.changes), old(base.disturbed), base.io, base.disturbed,
                  DoDispatch)
    ensures base.useChangelist ==> PendingAfter(old(base.io), old(base.changes), base.io, base.changes, DoDispatch)
  {
    ghost var io0, changes0, disturbed0, touched := base.io, base.changes, base.disturbed, base.Touched();
    TouchedNow(base);
    hide IoOk; hide Linked; hide CoherentBut; hide Pending; hide EventBase.Touched; hide EventBase.Valid;
    base.Dispatch();
    UnlinkedSame(base.io, io0);
    hide SameIo; hide Unlinked;
    assert base.disturbed == set fd | fd in disturbed0 && fd !in touched;
  }

  lemma TouchedNow(base: EventBase)
    requires base.Valid()
    ensures forall fd :: fd in base.Touched() <==> !Pending(base.io, base.changes, fd).Idle()
    ensures !base.useChangelist ==> base.Touched() == {}
  {
    forall fd ensures fd in base.Touched() <==> !Pending(base.io, base.changes, fd).Idle() {
      TouchedIff(base.io, base.changes, fd);
    }
  }

  lemma UnlinkedSame(io: Io, io0: Io)
    requires Unlinked(io, io0)
    ensures SameIo(io, io0)
  {
  }

  // ------------------------------------------------------------------------
  // Runs

  /** The change that is pending for an fd after the run: what was asked for since the last dispatch. */
  ghost function PendingOf(acts: seq<Action>, fd: int): Change {
    if |acts| == 0 then IdleChange(fd, NONE)
    else
      var prev := acts[..|acts| - 1];
      if acts[|acts| - 1].DoDispatch? then IdleChange(fd, Wanted(IoRun(acts), fd))
      else Asked(PendingOf(prev, fd), Wanted(IoRun(prev), fd), Wanted(IoRun(acts), fd))
  }

  /**
    The fds that something outside has changed and the coalescing backend has not put
    right since: a dispatch does so for every fd with something pending.
  */
  ghost function LazyStale(acts: seq<Action>): (s: set<int>) {
    if |acts| == 0 then {}
    else
      var prev, was := acts[..|acts| - 1], LazyStale(acts[..|acts| - 1]);
      match acts[|acts| - 1]
      case Meddle(fd, _) => was + {fd}
      case DoDispatch => set fd | fd in was && PendingOf(prev, fd).Idle()
      case _ => was
  }

  /** The same for the immediate backend, which does so whenever an fd asks for something else. */
  ghost function EagerStale(acts: seq<Action>): (s: set<int>) {
    if |acts| == 0 then {}
    else
      var prev, was := acts[..|acts| - 1], EagerStale(acts[..|acts| - 1]);
      match acts[|acts| - 1]
      case Meddle(fd, _) => was + {fd}
      case DoDispatch => was
      case _ => set fd | fd in was && Wanted(IoRun(acts), fd) == Wanted(IoRun(prev), fd)
  }

  ghost function Meddled(acts: seq<Action>): (s: set<int>) {
    set i | 0 <= i < |acts| && acts[i].Meddle? :: acts[i].fd
  }

  /** One outside change costs no other fd its place. */
  lemma {:induction false} StaleAreMeddled(acts: seq<Action>)
    ensures LazyStale(acts) <= Meddled(acts) && EagerStale(acts) <= Meddled(acts)
    decreases |acts|
  {
    if |acts| > 0 {
      var n := |acts| - 1;
      StaleAreMeddled(acts[..n]);
      forall fd | fd in Meddled(acts[..n]) ensures fd in Meddled(acts) {
        var i :| 0 <= i < n && acts[..n][i].Meddle? && acts[..n][i].fd == fd;
        assert acts[i].Meddle?;
      }
      assert acts[n].Meddle? ==> acts[n].fd in Meddled(acts);
    }
  }

  /**
    An event that is deleted, added again and dispatched heals its fd even though the fd
    asks for the same as before: whatever came earlier, an add that asks for one more kind
    is never a no-op.
  */
  lemma {:induction false} AddHeals(acts: seq<Action>, ev: Ev)
    requires Wanted(IoRun(acts + [AddEvent(ev)]), ev.fd) != Wanted(IoRun(acts), ev.fd)
    ensures ev.fd !in LazyStale(acts + [AddEvent(ev), DoDispatch])
  {
    var mid, all := acts + [AddEvent(ev)], acts + [AddEvent(ev), DoDispatch];
    assert mid[..|mid| - 1] == acts && all[..|all| - 1] == mid;
    var from, to := Wanted(IoRun(acts), ev.fd), Wanted(IoRun(mid), ev.fd);
    MoreWanted(IoRun(acts), ev);
    MoreIsPending(PendingOf(acts, ev.fd), from, to);
  }

  lemma MoreWanted(io: Io, ev: Ev)
    ensures var to := Wanted(IoAfter(io, AddEvent(ev)), ev.fd);
            to == Wanted(io, ev.fd) || !Minus(to, Wanted(io, ev.fd)).Empty()
  {
  }

  // An fd that is closed and reopened while its only event is deleted and added again.
  function Reopened(ev: Ev): seq<Action> {
    [AddEvent(ev), DoDispatch, DelEvent(ev), Meddle(ev.fd, NONE), AddEvent(ev)]
  }

  /** The second dispatch registers it again, although it asks for what it asked for at the first. */
  lemma {:induction false} ReopenedHeals(ev: Ev)
    requires ev.fd >= 0 && !ev.kinds.Empty()
    ensures Wanted(IoRun(Reopened(ev)), ev.fd) == Wanted(IoRun(Reopened(ev)[..2]), ev.fd) == ev.kinds
    ensures ev.fd in LazyStale(Reopened(ev)) && ev.fd !in LazyStale(Reopened(ev) + [DoDispatch])
  {
    var acts := Reopened(ev);
    var ctx := AddedCtx(NEW_CTX, ev);
    forall i: nat | i < 5 ensures acts[..i + 1][..i] == acts[..i] && acts[..i + 1][i] == acts[i] {
    }
    assert IoRun(acts[..0]) == map[];
    assert IoRun(acts[..1]) == map[ev.fd := ctx];
    assert IoRun(acts[..2]) == map[ev.fd := ctx];
    assert ctx.events == [ev] && IndexOf(ctx.events, ev) == 0;
    assert RemovedCtx(ctx, ev) == NEW_CTX;
    assert IoRun(acts[..3]) == map[ev.fd := NEW_CTX];
    assert IoRun(acts[..4]) == map[ev.fd := NEW_CTX];
    assert acts[..5] == acts && acts[..4] + [AddEvent(ev)] == acts;
    assert IoRun(acts) == map[ev.fd := ctx];
    assert ev.fd in LazyStale(acts[..4]);
    AddHeals(acts[..4], ev);
    assert acts[..4] + [AddEvent(ev), DoDispatch] == acts + [DoDispatch];
  }

  ghost predicate AgreeAt(k: Kernel, l: Kernel, fd: int) {
    (fd in k <==> fd in l) && (fd in k ==> k[fd] == l[fd])
  }

  // The coalescing backend so far.
  ghost predicate LazyOk(base: EventBase, acts: seq<Action>)
    reads base
  {
    && base.useChangelist && base.Valid() && SameIo(base.io, IoRun(acts)) && base.disturbed == LazyStale(acts)
    && (forall fd :: Pending(base.io, base.changes, fd) == PendingOf(acts, fd))
    && (|acts| > 0 && acts[|acts| - 1].DoDispatch? ==> base.changes == [])
  }

  // The immediate backend so far.
  ghost predicate EagerOk(base: EventBase, acts: seq<Action>)
    reads base
  {
    !base.useChangelist && base.Valid() && SameIo(base.io, IoRun(acts)) && base.disturbed == EagerStale(acts)
  }

  // What is pending follows the run.
  lemma {:induction false} PendingRun(
    io0: Io, changes0: seq<Change>, io: Io, changes: seq<Change>, acts: seq<Action>, prev: seq<Action>)
    requires |acts| > 0 && prev == acts[..|acts| - 1]
    requires PendingAfter(io0, changes0, io, changes, acts[|acts| - 1])
    requires forall fd :: Wanted(io0, fd) == Wanted(IoRun(prev), fd) && Wanted(io, fd) == Wanted(IoRun(acts), fd)
    requires forall fd :: Pending(io0, changes0, fd) == PendingOf(prev, fd)
    ensures forall fd :: Pending(io, changes, fd) == PendingOf(acts, fd)
  {
    hide Wanted; hide Asked; hide IoRun;
    if !acts[|acts| - 1].DoDispatch? {
      hide Pending;
    }
  }

  // So do the stale fds.
  lemma {:induction false} StaleRun(
    io0: Io, changes0: seq<Change>, io: Io, disturbed: set<int>, acts: seq<Action>, prev: seq<Action>)
    requires |acts| > 0 && prev == acts[..|acts| - 1]
    requires DisturbedAfter(true, io0, changes0, LazyStale(prev), io, disturbed, acts[|acts| - 1])
    requires forall fd :: Pending(io0, changes0, fd) == PendingOf(prev, fd)
    ensures disturbed == LazyStale(acts)
  {
    hide Wanted; hide Pending; hide PendingOf;
  }

  method LazyStep(base: EventBase, acts: seq<Action>, ghost prev: seq<Action>)
    requires |acts| > 0 && prev == acts[..|acts| - 1] && LazyOk(base, prev)
    modifies base
    ensures LazyOk(base, acts)
  {
    var a := acts[|acts| - 1];
    ghost var io0, changes0 := base.io, base.changes;
    SameIoAfter(io0, IoRun(prev), a);
    SameWants(io0, IoRun(prev));
    assert IoRun(acts) == IoAfter(IoRun(prev), a);
    hide IoOk; hide Linked; hide CoherentBut; hide IoAfter; hide SameIo; hide IoRun; hide Wanted; hide Pending;
    hide PendingOf; hide LazyStale; hide DisturbedAfter; hide PendingAfter; hide EventBase.Valid;
    Act(base, a);
    SameIoTrans(base.io, IoAfter(io0, a), IoRun(acts));
    SameWants(base.io, IoRun(acts));
    PendingRun(io0, changes0, base.io, base.changes, acts, prev);
    StaleRun(io0, changes0, base.io, base.disturbed, acts, prev);
    if a.DoDispatch? {
      NoChanges(io0, changes0, base.io, base.changes, a);
    }
  }

  lemma NoChanges(io0: Io, changes0: seq<Change>, io: Io, changes: seq<Change>, a: Action)
    requires PendingAfter(io0, changes0, io, changes, a) && a.DoDispatch?
    ensures changes == []
  {
  }

  method EagerStep(base: EventBase, acts: seq<Action>, ghost prev: seq<Action>)
    requires |acts| > 0 && prev == acts[..|acts| - 1] && EagerOk(base, prev)
    modifies base
    ensures EagerOk(base, acts)
  {
    var a := acts[|acts| - 1];
    ghost var io0, disturbed0 := base.io, base.disturbed;
    SameIoAfter(io0, IoRun(prev), a);
    SameWants(io0, IoRun(prev));
    hide IoOk; hide Linked; hide CoherentBut; hide IoAfter; hide SameIo;
    Act(base, a);
    SameIoTrans(base.io, IoAfter(io0, a), IoRun(acts));
    SameWants(base.io, IoRun(acts));
  }

  /** The two backends side by side, from the same start and through the same run. */
  method Lockstep(acts: seq<Action>) returns (lazy: EventBase, eager: EventBase)
    ensures lazy.useChangelist && !eager.useChangelist && lazy.Valid() && eager.Valid()
    ensures SameIo(lazy.io, IoRun(acts)) && SameIo(eager.io, IoRun(acts))
    ensures forall ev :: Holds(lazy.io, ev) == Holds(eager.io, ev) == AddedLast(acts, ev)
    ensures |acts| > 0 && acts[|acts| - 1].DoDispatch? ==>
              forall fd | fd !in LazyStale(acts) :: Registered(lazy.kernel, fd, Wanted(IoRun(acts), fd))
    ensures forall fd | fd !in EagerStale(acts) :: Registered(eager.kernel, fd, Wanted(IoRun(acts), fd))
    ensures |acts| > 0 && acts[|acts| - 1].DoDispatch? ==>
              forall fd | fd !in LazyStale(acts) && fd !in EagerStale(acts) :: AgreeAt(lazy.kernel, eager.kernel, fd)
    ensures |acts| > 0 && acts[|acts| - 1].DoDispatch? && Meddled(acts) == {} ==> lazy.kernel == eager.kernel
  {
    lazy := new EventBase(true);
    eager := new EventBase(false);
    hide IoOk; hide Linked; hide CoherentBut; hide LazyStale; hide EagerStale;
    NoneStale();
    var i := 0;
    while i < |acts|
      invariant 0 <= i <= |acts| && fresh(lazy) && fresh(eager) && lazy != eager
      invariant LazyOk(lazy, acts[..i]) && EagerOk(eager, acts[..i])
    {
      assert acts[..i + 1][..i] == acts[..i];
      LazyStep(lazy, acts[..i + 1], acts[..i]);
      EagerStep(eager, acts[..i + 1], acts[..i]);
      i := i + 1;
    }
    assert acts[..i] == acts;
    ListedInBoth(lazy.io, eager.io, acts);
    hide Holds; hide AddedLast;
    eager.InStep();
    SameWants(eager.io, IoRun(acts));
    StaleAreMeddled(acts);
    if |acts| > 0 && acts[|acts| - 1].DoDispatch? {
      lazy.InStep();
      SameWants(lazy.io, IoRun(acts));
      if Meddled(acts) == {} {
        SameKernel(lazy.kernel, eager.kernel, IoRun(acts));
      }
    }
  }

  lemma ListedInBoth(a: Io, b: Io, acts: seq<Action>)
    requires SameIo(a, IoRun(acts)) && SameIo(b, IoRun(acts))
    ensures forall ev :: Holds(a, ev) == Holds(b, ev) == AddedLast(acts, ev)
  {
    SameEvents(a, IoRun(acts));
    SameEvents(b, IoRun(acts));
    hide SameIo; hide IoRun; hide AddedLast; hide Holds; hide EventsOf;
    forall ev ensures Holds(a, ev) == Holds(b, ev) == AddedLast(acts, ev) {
      HoldsIs(a, ev);
      HoldsIs(b, ev);
      HoldsIs(IoRun(acts), ev);
      ListedIff(acts, ev);
    }
  }

  lemma NoneStale()
    ensures LazyStale([]) == {} && EagerStale([]) == {}
  {
  }

  lemma SameWants(a: Io, b: Io)
    requires SameIo(a, b)
    ensures forall fd :: Wanted(a, fd) == Wanted(b, fd)
  {
    forall fd ensures Wanted(a, fd) == Wanted(b, fd) {
      if fd in a {
        SameWanted(a, b, fd);
      }
    }
  }

  lemma SameKernel(k: Kernel, l: Kernel, io: Io)
    requires forall fd :: Registered(k, fd, Wanted(io, fd)) && Registered(l, fd, Wanted(io, fd))
    ensures k == l
  {
    forall fd ensures fd in k <==> fd in l {
      assert Registered(k, fd, Wanted(io, fd)) && Registered(l, fd, Wanted(io, fd));
    }
    forall fd | fd in k ensures k[fd] == l[fd] {
      assert Registered(k, fd, Wanted(io, fd)) && Registered(l, fd, Wanted(io, fd));
    }
  }

  // ------------------------------------------------------------------------
  // A delete that finds no memory

  // An event for reading on fd i.
  function Reader(i: nat): Ev { Ev(i, i, Kinds(true, false, false)) }

  // A base whose changelist has room for 64 entries, and fd 0 registered for reading.
  ghost predicate Prepared(base: EventBase, n: nat)
    reads base
  {
    && base.Valid() && base.useChangelist && base.changesSize == 64 && |base.changes| == n && base.disturbed == {}
    && Registered(base.kernel, 0, Reader(0).kinds)
    && 0 in base.io && base.io[0].idxplus1 == 0 && base.io[0].(idxplus1 := 0) == AddedCtx(NEW_CTX, Reader(0))
    && forall fd | fd in base.io :: fd <= n
  }

  method Prepare() returns (base: EventBase)
    ensures fresh(base) && Prepared(base, 0)
  {
    base := new EventBase(true);
    hide IoOk; hide Linked; hide CoherentBut; hide SamePending;
    var r := base.EvmapAdd(Reader(0), true);
    ghost var io1 := base.io;
    assert SameIo(io1, WithEvent(map[], Reader(0)));
    base.Dispatch();
    base.InStep();
    assert base.io[0] == io1[0].(idxplus1 := 0);
    assert base.changesSize == 64;
    assert base.disturbed == {};
    assert Wanted(base.io, 0) == Reader(0).kinds;
    assert forall fd | fd in base.io :: fd <= 0;
  }

  // One more fd joins the list.
  method Fill(base: EventBase, n: nat)
    requires Prepared(base, n) && n < 64
    modifies base
    ensures Prepared(base, n + 1)
  {
    hide IoOk; hide Linked; hide CoherentBut; hide SamePending;
    ghost var io0 := base.io;
    var r := base.EvmapAdd(Reader(n + 1), true);
    assert base.io[0].(idxplus1 := 0) == io0[0].(idxplus1 := 0);
  }

  /** 64 more fds fill the list, and the last reader of fd 0 has no entry there. */
  method FullList() returns (base: EventBase)
    ensures fresh(base) && base.Valid() && base.useChangelist
    ensures Holds(base.io, Reader(0)) && base.NoRoomFor(0) && 0 !in base.disturbed
    ensures Wanted(base.io, 0) == Reader(0).kinds && Wanted(WithoutEvent(base.io, Reader(0)), 0) == NONE
  {
    base := Prepare();
    for n := 0 to 64
      invariant fresh(base) && Prepared(base, n)
    {
      Fill(base, n);
    }
    LastReader(base);
  }

  /**
    Whenever a delete finds the changelist full and no memory, the dispatch that follows
    does not mend it: the kernel still has what was asked for before.
  */
  method ForgetsDelete(base: EventBase, ev: Ev) returns (r: int)
    requires base.Valid() && base.useChangelist && Holds(base.io, ev) && base.NoRoomFor(ev.fd)
    requires Wanted(WithoutEvent(base.io, ev), ev.fd) != Wanted(base.io, ev.fd) && ev.fd !in base.disturbed
    modifies base
    ensures r == -1 && base.Valid() && base.changes == [] && SameIo(base.io, WithoutEvent(old(base.io), ev))
    ensures base.kernel == AppliedAll(old(base.kernel), old(base.changes))
    ensures Registered(base.kernel, ev.fd, Wanted(old(base.io), ev.fd))
    ensures Wanted(base.io, ev.fd) != Wanted(old(base.io), ev.fd)
  {
    ghost var io0, changes0, kernel0 := base.io, base.changes, base.kernel;
    NothingPending(io0, changes0, kernel0, base.disturbed, ev.fd);
    AppliedElsewhere(kernel0, changes0, ev.fd);
    hide IoOk; hide CoherentBut; hide RemovedCtx; hide Linked; hide Booked;
    r := base.EvmapDel(ev, false);
    ghost var io1 := base.io;
    base.Dispatch();
    SameIoTrans(base.io, io1, WithoutEvent(io0, ev));
    SameWants(base.io, WithoutEvent(io0, ev));
  }

  lemma NothingPending(io: Io, changes: seq<Change>, kernel: Kernel, disturbed: set<int>, fd: int)
    requires Linked(io, changes) && AllCoherent(io, changes, kernel, disturbed)
    requires fd in io && io[fd].idxplus1 == 0 && fd >= 0 && fd !in disturbed
    ensures Registered(kernel, fd, Wanted(io, fd))
    ensures forall i | 0 <= i < |changes| :: changes[i].fd != fd
  {
    assert Coherent(fd, io[fd].idxplus1, Asks(io, fd, -1, NONE), changes, kernel, fd in disturbed);
  }

  // The last reader of fd 0 is such an event there.
  lemma LastReader(base: EventBase)
    requires Prepared(base, 64)
    ensures Holds(base.io, Reader(0)) && base.NoRoomFor(0) && 0 !in base.disturbed
    ensures Wanted(base.io, 0) == Reader(0).kinds && Wanted(WithoutEvent(base.io, Reader(0)), 0) == NONE
  {
    assert base.io[0].events == [Reader(0)];
    assert IndexOf(base.io[0].events, Reader(0)) == 0;
  }
}
