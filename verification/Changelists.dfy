/**
  The per-fd event map, the changelist and the epoll backend (evmap.c, epoll.c).

  Adds and deletes of events are counted per fd. A backend is told only when a kind
  of interest appears or disappears: either at once, by one epoll_ctl, or through the
  changelist, which coalesces the changes of an fd until the next dispatch.
*/
module Changelists {
  import opened EpollTable

  /** An event registered on an fd for some kinds. */
  datatype Ev = Ev(id: nat, fd: int, kinds: Kinds)

  datatype Kind = R | W | C

  predicate Has(k: Kinds, kind: Kind) {
    match kind case R => k.r case W => k.w case C => k.c
  }

  ghost function Count(evs: seq<Ev>, kind: Kind): (n: nat) {
    if |evs| == 0 then 0 else (if Has(evs[0].kinds, kind) then 1 else 0) + Count(evs[1..], kind)
  }

  /** struct evmap_io, with the changelist's per-fd index (0 for none). */
  datatype Ctx = Ctx(events: seq<Ev>, nread: nat, nwrite: nat, nclose: nat, idxplus1: nat) {
    // The interest the counts ask for.
    function Wanted(): Kinds { Kinds(nread > 0, nwrite > 0, nclose > 0) }
  }

  const NEW_CTX := Ctx([], 0, 0, 0, 0)

  // evmap_check_integrity_
  ghost predicate CtxOk(fd: int, ctx: Ctx) {
    && (forall i | 0 <= i < |ctx.events| :: ctx.events[i].fd == fd)
    && (forall i, j | 0 <= i < j < |ctx.events| :: ctx.events[i] != ctx.events[j])
    && ctx.nread == Count(ctx.events, R) <= 0xffff
    && ctx.nwrite == Count(ctx.events, W) <= 0xffff
    && ctx.nclose == Count(ctx.events, C) <= 0xffff
  }

  lemma {:induction false} CountRemove(evs: seq<Ev>, j: nat, kind: Kind)
    requires j < |evs|
    ensures Count(evs[..j] + evs[j + 1..], kind) == Count(evs, kind) - if Has(evs[j].kinds, kind) then 1 else 0
    decreases j
  {
    if j == 0 {
      assert evs[..0] + evs[1..] == evs[1..];
    } else {
      CountRemove(evs[1..], j - 1, kind);
      assert (evs[..j] + evs[j + 1..])[1..] == evs[1..][..j - 1] + evs[1..][j..];
    }
  }

  // ------------------------------------------------------------------------
  // The kernel's side

  /** The fds registered with the epoll instance and the events asked for. */
  type Kernel = map<int, Kinds>

  datatype Errno = SUCCESS | ENOENT | EEXIST

  // The fd is registered for exactly these kinds (not at all when there are none).
  predicate Registered(k: Kernel, fd: int, kinds: Kinds) {
    (fd in k <==> !kinds.Empty()) && (fd in k ==> k[fd] == kinds)
  }

  function EpollCtl(k: Kernel, op: CtlOp, fd: int, events: Kinds): (r: (Kernel, Errno)) {
    match op
    case CTL_ADD => if fd in k then (k, EEXIST) else (k[fd := events], SUCCESS)
    case CTL_MOD => if fd in k then (k[fd := events], SUCCESS) else (k, ENOENT)
    case CTL_DEL => if fd in k then (k - {fd}, SUCCESS) else (k, ENOENT)
    case _ => (k, SUCCESS)
  }

  /** The kernel after a change has been made, whatever was registered before. */
  function Applied(k: Kernel, ch: Change): Kernel {
    if ch.Idle() then k
    else if ch.Wanted().Empty() then k - {ch.fd}
    else k[ch.fd := ch.Wanted()]
  }

  ghost function AppliedAll(k: Kernel, chs: seq<Change>): Kernel {
    if |chs| == 0 then k else Applied(AppliedAll(k, chs[..|chs| - 1]), chs[|chs| - 1])
  }

  // An fd no change speaks of is left alone.
  lemma {:induction false} AppliedElsewhere(k: Kernel, chs: seq<Change>, fd: int)
    requires forall i | 0 <= i < |chs| :: chs[i].fd != fd
    ensures fd in AppliedAll(k, chs) <==> fd in k
    ensures fd in k ==> AppliedAll(k, chs)[fd] == k[fd]
    decreases |chs|
  {
    if |chs| > 0 {
      AppliedElsewhere(k, chs[..|chs| - 1], fd);
    }
  }

  // The one change of an fd decides what becomes of it.
  lemma {:induction false} AppliedAt(k: Kernel, chs: seq<Change>, j: nat)
    requires j < |chs| && forall i | 0 <= i < |chs| && i != j :: chs[i].fd != chs[j].fd
    ensures !chs[j].Idle() ==> Registered(AppliedAll(k, chs), chs[j].fd, chs[j].Wanted())
    ensures chs[j].Idle() ==> (chs[j].fd in AppliedAll(k, chs) <==> chs[j].fd in k)
    ensures chs[j].Idle() && chs[j].fd in k ==> AppliedAll(k, chs)[chs[j].fd] == k[chs[j].fd]
    decreases |chs|
  {
    var n := |chs| - 1;
    if j < n {
      AppliedAt(k, chs[..n], j);
    } else {
      AppliedElsewhere(k, chs[..n], chs[j].fd);
    }
  }

  // ------------------------------------------------------------------------
  // The event base

  // The changelist and the per-fd indices point at each other.
  ghost predicate Linked(io: map<int, Ctx>, changes: seq<Change>) {
    && (forall i | 0 <= i < |changes| ::
          changes[i].Sane() && changes[i].fd in io && io[changes[i].fd].idxplus1 == i + 1)
    && (forall fd | fd in io && io[fd].idxplus1 > 0 ::
          io[fd].idxplus1 <= |changes| && changes[io[fd].idxplus1 - 1].fd == fd)
  }

  /**
    What is registered, corrected by the pending change, is what is wanted. An fd that
    was disturbed behind the library's back is only promised the pending change.
  */
  ghost predicate Coherent(fd: int, idxplus1: nat, wanted: Kinds, changes: seq<Change>, k: Kernel, disturbed: bool) {
    if 0 < idxplus1 <= |changes| then
      var ch := changes[idxplus1 - 1];
      ch.Wanted() == wanted && (!disturbed ==> Registered(k, fd, ch.before))
    else
      !disturbed ==> Registered(k, fd, wanted)
  }

  // What the counts of f ask for, except that `fd` is about to ask for `w`.
  ghost function Asks(io: map<int, Ctx>, f: int, fd: int, w: Kinds): Kinds
    requires f in io
  {
    if f == fd then w else io[f].Wanted()
  }

  ghost predicate CoherentBut(
    io: map<int, Ctx>, changes: seq<Change>, k: Kernel, disturbed: set<int>, fd: int, w: Kinds)
  {
    && (forall f | f in io :: Coherent(f, io[f].idxplus1, Asks(io, f, fd, w), changes, k, f in disturbed))
    && (forall f | f in k && f !in disturbed :: f in io)
  }

  // No fd is negative, so this makes no exception.
  ghost predicate AllCoherent(io: map<int, Ctx>, changes: seq<Change>, k: Kernel, disturbed: set<int>) {
    CoherentBut(io, changes, k, disturbed, -1, NONE)
  }

  ghost predicate IoOk(io: map<int, Ctx>) {
    forall fd | fd in io :: fd >= 0 && CtxOk(fd, io[fd])
  }

  // The same events and counts; only the changelist indices may differ.
  ghost predicate SameIo(a: map<int, Ctx>, b: map<int, Ctx>) {
    a.Keys == b.Keys && forall fd | fd in a :: a[fd].(idxplus1 := 0) == b[fd].(idxplus1 := 0)
  }

  ghost predicate Unlinked(a: map<int, Ctx>, b: map<int, Ctx>) {
    a.Keys == b.Keys && forall fd | fd in a :: a[fd] == b[fd].(idxplus1 := 0)
  }

  lemma UnlinkedOk(a: map<int, Ctx>, b: map<int, Ctx>)
    requires Unlinked(a, b) && IoOk(b)
    ensures SameIo(b, a) && IoOk(a) && Linked(a, [])
  {
    SameIoOk(b, a);
  }

  lemma SameIoOk(a: map<int, Ctx>, b: map<int, Ctx>)
    requires IoOk(a) && SameIo(a, b)
    ensures IoOk(b)
  {
    forall fd | fd in b ensures fd >= 0 && CtxOk(fd, b[fd]) {
      assert CtxOk(fd, a[fd]) && a[fd].(idxplus1 := 0) == b[fd].(idxplus1 := 0);
    }
  }

  function Union(a: Kinds, b: Kinds): Kinds { Kinds(a.r || b.r, a.w || b.w, a.c || b.c) }

  function Minus(a: Kinds, b: Kinds): Kinds { Kinds(a.r && !b.r, a.w && !b.w, a.c && !b.c) }

  // An add replaces whatever was pending for the kind.
  function AddTo(ch: Change, ev: Kinds): (r: Change)
    ensures r.Wanted() == Union(ch.Wanted(), ev) && (ch.Sane() ==> r.Sane())
  {
    ch.(read := if ev.r then AddIt else ch.read,
        write := if ev.w then AddIt else ch.write,
        close := if ev.c then AddIt else ch.close)
  }

  // A delete of a kind that was not enabled before only cancels the pending add.
  function DelFrom(ch: Change, ev: Kinds): (r: Change)
    ensures r.Wanted() == Minus(ch.Wanted(), ev) && (ch.Sane() ==> r.Sane())
  {
    ch.(read := if ev.r then (if ch.before.r then DelIt else Keep) else ch.read,
        write := if ev.w then (if ch.before.w then DelIt else Keep) else ch.write,
        close := if ev.c then (if ch.before.c then DelIt else Keep) else ch.close)
  }

  function IdleChange(fd: int, before: Kinds): Change { Change(fd, before, Keep, Keep, Keep) }

  // The entry an fd points at is its own.
  lemma LinkedAt(io: map<int, Ctx>, changes: seq<Change>, fd: int)
    requires Linked(io, changes) && fd in io
    ensures 0 < io[fd].idxplus1 ==> io[fd].idxplus1 <= |changes| && changes[io[fd].idxplus1 - 1].fd == fd
  {
  }

  lemma LinkedSane(io: map<int, Ctx>, changes: seq<Change>, i: nat)
    requires Linked(io, changes) && i < |changes|
    ensures changes[i].Sane() && changes[i].fd in io
  {
  }

  lemma SameIoStored(io0: map<int, Ctx>, io: map<int, Ctx>, fd: int, ctx: Ctx, idxplus1: nat)
    requires SameIo(io0, io) && fd in io
    ensures SameIo(io[fd := ctx.(idxplus1 := idxplus1)], io0[fd := ctx])
  {
  }

  lemma SameIoSwap(a: map<int, Ctx>, b: map<int, Ctx>)
    requires SameIo(a, b)
    ensures SameIo(b, a)
  {
  }

  lemma SameIoSelf(io: map<int, Ctx>)
    ensures SameIo(io, io)
  {
  }

  lemma {:induction false} LinkedNew(io: map<int, Ctx>, changes: seq<Change>, fd: int)
    requires Linked(io, changes) && fd in io && io[fd].idxplus1 == 0
    ensures Linked(io[fd := io[fd].(idxplus1 := |changes| + 1)], changes + [IdleChange(fd, io[fd].Wanted())])
  {
  }

  // A fresh entry that asks for nothing new.
  lemma {:induction false} NewEntry(io: map<int, Ctx>, changes: seq<Change>, k: Kernel, disturbed: set<int>, fd: int)
    requires IoOk(io) && Linked(io, changes) && AllCoherent(io, changes, k, disturbed)
    requires fd in io && io[fd].idxplus1 == 0
    ensures var io' := io[fd := io[fd].(idxplus1 := |changes| + 1)];
            var changes' := changes + [IdleChange(fd, io[fd].Wanted())];
            Linked(io', changes') && AllCoherent(io', changes', k, disturbed) && SameIo(io, io')
  {
    var io' := io[fd := io[fd].(idxplus1 := |changes| + 1)];
    var changes' := changes + [IdleChange(fd, io[fd].Wanted())];
    SameIoSelf(io);
    LinkedNew(io, changes, fd);
    LinkedRange(io, changes);
    IoPositive(io);
    SameIoStored(io, io, fd, io[fd], |changes| + 1);
    assert io == io[fd := io[fd]];
    SameIoSwap(io', io);
    hide Linked; hide IoOk; hide Coherent; hide Registered; hide IdleChange; hide SameIo;
    forall f | f in io' ensures Coherent(f, io'[f].idxplus1, Asks(io', f, -1, NONE), changes', k, f in disturbed) {
      assert Coherent(f, io[f].idxplus1, Asks(io, f, -1, NONE), changes, k, f in disturbed);
      CoherentNew(f, io[f].idxplus1, io'[f].idxplus1, io[f].Wanted(), changes, fd, io[fd].Wanted(), k, f in disturbed);
    }
  }

  lemma LinkedRange(io: map<int, Ctx>, changes: seq<Change>)
    requires Linked(io, changes)
    ensures forall f | f in io :: io[f].idxplus1 <= |changes|
  {
  }

  lemma IoPositive(io: map<int, Ctx>)
    requires IoOk(io)
    ensures -1 !in io
  {
  }

  // One more entry at the end: the others are where they were, and fd points at it.
  lemma {:induction false} CoherentNew(
    f: int, idxplus1: nat, idxplus1': nat, wanted: Kinds, changes: seq<Change>, fd: int, w: Kinds, k: Kernel,
    disturbed: bool)
    requires Coherent(f, idxplus1, wanted, changes, k, disturbed)
    requires idxplus1 <= |changes|
    requires if f == fd then idxplus1 == 0 && idxplus1' == |changes| + 1 && w == wanted else idxplus1' == idxplus1
    ensures Coherent(f, idxplus1', wanted, changes + [IdleChange(fd, w)], k, disturbed)
  {
  }

  // Changing the pending change of an fd changes only what that fd is promised.
  lemma {:induction false} SetChange(
    io: map<int, Ctx>, changes: seq<Change>, k: Kernel, disturbed: set<int>, fd: int, ch: Change)
    requires IoOk(io) && Linked(io, changes) && AllCoherent(io, changes, k, disturbed)
    requires fd in io && io[fd].idxplus1 > 0
    requires ch.Sane() && ch.fd == fd && ch.before == changes[io[fd].idxplus1 - 1].before
    ensures var changes' := changes[io[fd].idxplus1 - 1 := ch];
            Linked(io, changes') && CoherentBut(io, changes', k, disturbed, fd, ch.Wanted())
  {
    var changes' := changes[io[fd].idxplus1 - 1 := ch];
    LinkedSet(io, changes, fd, ch);
    LinkedApart(io, changes, fd);
    IoPositive(io);
    hide Linked; hide IoOk; hide Registered;
    forall f | f in io ensures Coherent(f, io[f].idxplus1, Asks(io, f, fd, ch.Wanted()), changes', k, f in disturbed) {
      assert Coherent(f, io[f].idxplus1, Asks(io, f, -1, NONE), changes, k, f in disturbed);
    }
  }

  lemma {:induction false} LinkedSet(io: map<int, Ctx>, changes: seq<Change>, fd: int, ch: Change)
    requires Linked(io, changes) && fd in io && io[fd].idxplus1 > 0 && ch.Sane() && ch.fd == fd
    ensures Linked(io, changes[io[fd].idxplus1 - 1 := ch])
  {
  }

  lemma {:induction false} LinkedApart(io: map<int, Ctx>, changes: seq<Change>, fd: int)
    requires Linked(io, changes) && fd in io && io[fd].idxplus1 > 0
    ensures io[fd].idxplus1 <= |changes|
    ensures forall f | f in io && f != fd && io[f].idxplus1 > 0 :: io[f].idxplus1 != io[fd].idxplus1
  {
  }

  // A change made at once puts its fd right whatever was registered before.
  lemma {:induction false} ApplyNow(io: map<int, Ctx>, k: Kernel, disturbed: set<int>, ch: Change)
    requires IoOk(io) && Linked(io, []) && AllCoherent(io, [], k, disturbed) && ch.fd in io && !ch.Idle()
    ensures CoherentBut(io, [], Applied(k, ch), disturbed - {ch.fd}, ch.fd, ch.Wanted())
  {
    forall f | f in io
      ensures Coherent(f, io[f].idxplus1, Asks(io, f, ch.fd, ch.Wanted()), [], Applied(k, ch), f in disturbed - {ch.fd})
    {
      assert Coherent(f, io[f].idxplus1, io[f].Wanted(), [], k, f in disturbed);
    }
  }

  // Once the counts are stored they ask for what was promised.
  lemma {:induction false} StoreCounts(
    io: map<int, Ctx>, changes: seq<Change>, k: Kernel, disturbed: set<int>, fd: int, ctx: Ctx)
    requires IoOk(io) && Linked(io, changes) && fd in io && ctx.idxplus1 == io[fd].idxplus1
    requires CoherentBut(io, changes, k, disturbed, fd, ctx.Wanted()) && CtxOk(fd, ctx)
    ensures Linked(io[fd := ctx], changes) && AllCoherent(io[fd := ctx], changes, k, disturbed) && IoOk(io[fd := ctx])
  {
    IoStore(io, fd, ctx);
    LinkedStore(io, changes, fd, ctx);
    hide CtxOk; hide IoOk; hide Linked; hide Coherent;
    var io' := io[fd := ctx];
    forall f | f in io' ensures Coherent(f, io'[f].idxplus1, Asks(io', f, -1, NONE), changes, k, f in disturbed) {
      assert Coherent(f, io[f].idxplus1, Asks(io, f, fd, ctx.Wanted()), changes, k, f in disturbed);
    }
  }

  lemma IoStore(io: map<int, Ctx>, fd: int, ctx: Ctx)
    requires IoOk(io) && fd in io && CtxOk(fd, ctx)
    ensures IoOk(io[fd := ctx]) && -1 !in io && fd != -1
  {
    hide CtxOk;
  }

  lemma LinkedStore(io: map<int, Ctx>, changes: seq<Change>, fd: int, ctx: Ctx)
    requires Linked(io, changes) && fd in io && ctx.idxplus1 == io[fd].idxplus1
    ensures Linked(io[fd := ctx], changes)
  {
    var io' := io[fd := ctx];
    forall f | f in io' && io'[f].idxplus1 > 0
      ensures io'[f].idxplus1 <= |changes| && changes[io'[f].idxplus1 - 1].fd == f
    {
      assert io'[f].idxplus1 == io[f].idxplus1;
    }
    forall i | 0 <= i < |changes|
      ensures changes[i].Sane() && changes[i].fd in io' && io'[changes[i].fd].idxplus1 == i + 1
    {
      assert changes[i].fd in io;
    }
  }

  ghost predicate Holds(io: map<int, Ctx>, ev: Ev) {
    ev.fd in io && ev in io[ev.fd].events
  }

  ghost function Wanted(io: map<int, Ctx>, fd: int): Kinds {
    if fd in io then io[fd].Wanted() else NONE
  }

  ghost function WithSlot(io: map<int, Ctx>, fd: int): map<int, Ctx> {
    if fd in io then io else io[fd := NEW_CTX]
  }

  predicate TooMany(ctx: Ctx, ev: Ev) {
    (ev.kinds.r && ctx.nread == 0xffff) || (ev.kinds.w && ctx.nwrite == 0xffff) || (ev.kinds.c && ctx.nclose == 0xffff)
  }

  // The new event goes to the head of the list.
  function AddedCtx(ctx: Ctx, ev: Ev): Ctx {
    ctx.(events := [ev] + ctx.events,
         nread := if ev.kinds.r then ctx.nread + 1 else ctx.nread,
         nwrite := if ev.kinds.w then ctx.nwrite + 1 else ctx.nwrite,
         nclose := if ev.kinds.c then ctx.nclose + 1 else ctx.nclose)
  }

  ghost function WithEvent(io: map<int, Ctx>, ev: Ev): map<int, Ctx> {
    WithSlot(io, ev.fd)[ev.fd := AddedCtx(WithSlot(io, ev.fd)[ev.fd], ev)]
  }

  lemma {:induction false} AddedCtxOk(fd: int, ctx: Ctx, ev: Ev)
    requires CtxOk(fd, ctx) && ev.fd == fd && ev !in ctx.events && !TooMany(ctx, ev)
    ensures CtxOk(fd, AddedCtx(ctx, ev))
    ensures AddedCtx(ctx, ev).Wanted() == Union(ctx.Wanted(), ev.kinds)
  {
    var evs := [ev] + ctx.events;
    assert evs[1..] == ctx.events;
  }

  lemma {:induction false} EmptySlot(io: map<int, Ctx>, changes: seq<Change>, k: Kernel, disturbed: set<int>, fd: int)
    requires IoOk(io) && Linked(io, changes) && AllCoherent(io, changes, k, disturbed) && fd >= 0 && fd !in io
    ensures var io' := io[fd := NEW_CTX];
            IoOk(io') && Linked(io', changes) && AllCoherent(io', changes, k, disturbed)
  {
    var io' := io[fd := NEW_CTX];
    SlotLinked(io, changes, fd);
    SlotOk(io, fd);
    IoPositive(io);
    hide IoOk; hide Linked;
    forall f | f in io' ensures Coherent(f, io'[f].idxplus1, Asks(io', f, -1, NONE), changes, k, f in disturbed) {
      if f != fd {
        hide Coherent;
        assert Coherent(f, io[f].idxplus1, Asks(io, f, -1, NONE), changes, k, f in disturbed);
      }
    }
  }

  lemma SlotLinked(io: map<int, Ctx>, changes: seq<Change>, fd: int)
    requires Linked(io, changes) && fd !in io
    ensures Linked(io[fd := NEW_CTX], changes)
  {
  }

  lemma SlotOk(io: map<int, Ctx>, fd: int)
    requires IoOk(io) && fd >= 0
    ensures IoOk(io[fd := NEW_CTX])
  {
  }

  function IndexOf(evs: seq<Ev>, ev: Ev): (j: nat)
    requires ev in evs
    ensures j < |evs| && evs[j] == ev
  {
    if evs[0] == ev then 0 else 1 + IndexOf(evs[1..], ev)
  }

  // LIST_REMOVE and the decremented counts
  function RemovedCtx(ctx: Ctx, ev: Ev): Ctx
    requires ev in ctx.events
  {
    var j := IndexOf(ctx.events, ev);
    var dec := (n: nat, b: bool) => if b && n > 0 then n - 1 else n;
    ctx.(events := ctx.events[..j] + ctx.events[j + 1..],
         nread := dec(ctx.nread, ev.kinds.r),
         nwrite := dec(ctx.nwrite, ev.kinds.w),
         nclose := dec(ctx.nclose, ev.kinds.c))
  }

  ghost function WithoutEvent(io: map<int, Ctx>, ev: Ev): map<int, Ctx>
    requires Holds(io, ev)
  {
    io[ev.fd := RemovedCtx(io[ev.fd], ev)]
  }

  lemma {:induction false} RemovedCtxOk(fd: int, ctx: Ctx, ev: Ev)
    requires CtxOk(fd, ctx) && ev in ctx.events
    ensures CtxOk(fd, RemovedCtx(ctx, ev))
    ensures ev.kinds.r ==> ctx.nread > 0
    ensures ev.kinds.w ==> ctx.nwrite > 0
    ensures ev.kinds.c ==> ctx.nclose > 0
  {
    var j := IndexOf(ctx.events, ev);
    CountRemove(ctx.events, j, R);
    CountRemove(ctx.events, j, W);
    CountRemove(ctx.events, j, C);
    RemovedDistinct(fd, ctx.events, j);
    hide Count;
  }

  lemma {:induction false} RemovedDistinct(fd: int, evs: seq<Ev>, j: nat)
    requires j < |evs| && forall i | 0 <= i < |evs| :: evs[i].fd == fd
    requires forall i, k | 0 <= i < k < |evs| :: evs[i] != evs[k]
    ensures var r := evs[..j] + evs[j + 1..];
            (forall i | 0 <= i < |r| :: r[i].fd == fd) && (forall i, k | 0 <= i < k < |r| :: r[i] != r[k])
  {
  }

  // The list of events of an fd.
  ghost function EventsOf(io: map<int, Ctx>, fd: int): seq<Ev> {
    if fd in io then io[fd].events else []
  }

  // Exactly this event is gone, and the others are in their old order.
  ghost predicate CutOut(a: seq<Ev>, b: seq<Ev>, ev: Ev) {
    ev !in b && exists j :: 0 <= j < |a| && a[j] == ev && b == a[..j] + a[j + 1..]
  }

  lemma {:induction false} RemovedIs(io: map<int, Ctx>, io': map<int, Ctx>, ev: Ev)
    requires IoOk(io) && Holds(io, ev) && SameIo(io', WithoutEvent(io, ev))
    ensures CutOut(EventsOf(io, ev.fd), EventsOf(io', ev.fd), ev)
    ensures forall fd | fd != ev.fd :: EventsOf(io', fd) == EventsOf(io, fd)
  {
    var a, j := io[ev.fd].events, IndexOf(io[ev.fd].events, ev);
    assert CtxOk(ev.fd, io[ev.fd]);
    CutAt(a, j);
    assert a[j] == ev && EventsOf(WithoutEvent(io, ev), ev.fd) == a[..j] + a[j + 1..];
    hide IoOk; hide IndexOf; hide CutOut; hide SameIo; hide CtxOk;
    SameEvents(io', WithoutEvent(io, ev));
  }

  lemma CutAt(a: seq<Ev>, j: nat)
    requires j < |a| && forall i, k | 0 <= i < k < |a| :: a[i] != a[k]
    ensures CutOut(a, a[..j] + a[j + 1..], a[j])
  {
  }

  lemma {:induction false} AddedIs(io: map<int, Ctx>, io': map<int, Ctx>, ev: Ev)
    requires SameIo(io', WithEvent(io, ev))
    ensures EventsOf(io', ev.fd) == [ev] + EventsOf(io, ev.fd)
    ensures forall fd | fd != ev.fd :: EventsOf(io', fd) == EventsOf(io, fd)
  {
    SameEvents(io', WithEvent(io, ev));
  }

  lemma {:induction false} SlotIs(io: map<int, Ctx>, io': map<int, Ctx>, fd: int)
    requires SameIo(io', io) || SameIo(io', WithSlot(io, fd))
    ensures forall f :: EventsOf(io', f) == EventsOf(io, f)
  {
    if SameIo(io', io) {
      SameEvents(io', io);
    } else {
      SameEvents(io', WithSlot(io, fd));
    }
  }

  lemma {:induction false} SameEvents(a: map<int, Ctx>, b: map<int, Ctx>)
    requires SameIo(a, b)
    ensures forall fd :: EventsOf(a, fd) == EventsOf(b, fd)
  {
    forall fd ensures EventsOf(a, fd) == EventsOf(b, fd) {
      if fd in a {
        assert a[fd].(idxplus1 := 0) == b[fd].(idxplus1 := 0);
      }
    }
  }

  // As many events of some kind as a 16-bit count can tell are there already.
  ghost predicate Crowded(evs: seq<Ev>, kinds: Kinds) {
    exists kind :: Has(kinds, kind) && Count(evs, kind) == 0xffff
  }

  lemma {:induction false} CrowdedIs(io: map<int, Ctx>, ev: Ev)
    requires IoOk(io)
    ensures TooMany(WithSlot(io, ev.fd)[ev.fd], ev) <==> Crowded(EventsOf(io, ev.fd), ev.kinds)
  {
    var evs := EventsOf(io, ev.fd);
    assert ev.fd in io ==> CtxOk(ev.fd, io[ev.fd]);
    hide IoOk;
    assert Has(ev.kinds, R) == ev.kinds.r && Has(ev.kinds, W) == ev.kinds.w && Has(ev.kinds, C) == ev.kinds.c;
    if TooMany(WithSlot(io, ev.fd)[ev.fd], ev) {
      var kind := if ev.kinds.r && Count(evs, R) == 0xffff then R
                  else if ev.kinds.w && Count(evs, W) == 0xffff then W else C;
      assert Has(ev.kinds, kind) && Count(evs, kind) == 0xffff;
    }
  }

  // The kinds that nobody asks for once the event is gone.
  lemma GoneKinds(ctx: Ctx, ev: Ev, res: Kinds)
    requires ev in ctx.events
    requires ev.kinds.r ==> ctx.nread > 0
    requires ev.kinds.w ==> ctx.nwrite > 0
    requires ev.kinds.c ==> ctx.nclose > 0
    requires res == Kinds(ev.kinds.r && ctx.nread == 1, ev.kinds.w && ctx.nwrite == 1, ev.kinds.c && ctx.nclose == 1)
    ensures RemovedCtx(ctx, ev).Wanted() == Minus(ctx.Wanted(), res)
    ensures res == Minus(ctx.Wanted(), RemovedCtx(ctx, ev).Wanted())
    ensures res.Empty() <==> RemovedCtx(ctx, ev).Wanted() == ctx.Wanted()
  {
  }

  lemma {:induction false} Unasked(io: map<int, Ctx>, changes: seq<Change>, k: Kernel, disturbed: set<int>, fd: int)
    requires IoOk(io) && AllCoherent(io, changes, k, disturbed) && fd in io
    ensures CoherentBut(io, changes, k, disturbed, fd, io[fd].Wanted())
  {
    hide CtxOk;
    forall f | f in io
      ensures Coherent(f, io[f].idxplus1, Asks(io, f, fd, io[fd].Wanted()), changes, k, f in disturbed)
    {
      assert Coherent(f, io[f].idxplus1, Asks(io, f, -1, NONE), changes, k, f in disturbed);
    }
  }

  // An fd without a pending change that nobody told: all bets are off for it.
  lemma {:induction false} Forgotten(
    io: map<int, Ctx>, changes: seq<Change>, k: Kernel, disturbed: set<int>, fd: int, w: Kinds)
    requires IoOk(io) && AllCoherent(io, changes, k, disturbed) && fd in io && io[fd].idxplus1 == 0
    ensures CoherentBut(io, changes, k, disturbed + {fd}, fd, w)
  {
    hide CtxOk;
    forall f | f in io ensures Coherent(f, io[f].idxplus1, Asks(io, f, fd, w), changes, k, f in disturbed + {fd}) {
      assert Coherent(f, io[f].idxplus1, Asks(io, f, -1, NONE), changes, k, f in disturbed);
    }
  }

  // ------------------------------------------------------------------------
  // What the changelist remembers

  // event_changelist_grow
  function Grown(size: nat): (r: nat)
    ensures r > size
  {
    if size < 64 then 64 else size * 2
  }

  lemma GrownIs(size: nat)
    ensures Grown(size) == if size < 64 then 64 else 2 * size
  {
  }

  // The change that is pending for an fd: its entry, or one that changes nothing.
  ghost function Pending(io: map<int, Ctx>, changes: seq<Change>, fd: int): Change {
    if fd in io && 0 < io[fd].idxplus1 <= |changes| then changes[io[fd].idxplus1 - 1]
    else IdleChange(fd, Wanted(io, fd))
  }

  ghost predicate SamePending(
    io: map<int, Ctx>, changes: seq<Change>, io': map<int, Ctx>, changes': seq<Change>, fd: int)
  {
    forall f | f != fd :: Pending(io', changes', f) == Pending(io, changes, f)
  }

  /** The books after a call about fd: at most one entry is new, and `ch` is pending for fd now. */
  ghost predicate Booked(
    io: map<int, Ctx>, changes: seq<Change>, size: nat,
    io': map<int, Ctx>, changes': seq<Change>, size': nat, fd: int, entry: bool, ch: Change)
  {
    var fresh' := entry && !(fd in io && io[fd].idxplus1 > 0);
    && (forall f | f in io && f != fd :: f in io' && io'[f].idxplus1 == io[f].idxplus1)
    && |changes'| == |changes| + (if fresh' then 1 else 0)
    && size' == (if fresh' && |changes| == size then Grown(size) else size)
    && SamePending(io, changes, io', changes', fd) && Pending(io', changes', fd) == ch
  }

  lemma BookedNone(io: map<int, Ctx>, changes: seq<Change>, size: nat, fd: int, entry: bool)
    requires entry ==> fd in io && io[fd].idxplus1 > 0
    ensures Booked(io, changes, size, io, changes, size, fd, entry, Pending(io, changes, fd))
  {
  }

  lemma {:induction false} BookedNew(io: map<int, Ctx>, changes: seq<Change>, size: nat, fd: int)
    requires Linked(io, changes) && fd in io && io[fd].idxplus1 == 0
    ensures Booked(io, changes, size,
                   io[fd := io[fd].(idxplus1 := |changes| + 1)], changes + [IdleChange(fd, io[fd].Wanted())],
                   if |changes| == size then Grown(size) else size, fd, true, Pending(io, changes, fd))
  {
    var io' := io[fd := io[fd].(idxplus1 := |changes| + 1)];
    var changes' := changes + [IdleChange(fd, io[fd].Wanted())];
    forall f | f != fd ensures Pending(io', changes', f) == Pending(io, changes, f) {
      if f in io && io[f].idxplus1 > 0 {
        assert io[f].idxplus1 <= |changes|;
      }
    }
  }

  lemma {:induction false} BookedSet(
    io0: map<int, Ctx>, changes0: seq<Change>, size0: nat,
    io: map<int, Ctx>, changes: seq<Change>, size: nat, fd: int, entry: bool, ch0: Change, ch: Change)
    requires Booked(io0, changes0, size0, io, changes, size, fd, entry, ch0)
    requires fd in io && 0 < io[fd].idxplus1 <= |changes|
    requires forall f | f in io && f != fd && io[f].idxplus1 > 0 :: io[f].idxplus1 != io[fd].idxplus1
    ensures Booked(io0, changes0, size0, io, changes[io[fd].idxplus1 - 1 := ch], size, fd, entry, ch)
  {
    var changes' := changes[io[fd].idxplus1 - 1 := ch];
    forall f | f != fd ensures Pending(io, changes', f) == Pending(io0, changes0, f) {
      assert Pending(io, changes', f) == Pending(io, changes, f);
    }
  }

  lemma {:induction false} BookedStore(
    io0: map<int, Ctx>, changes0: seq<Change>, size0: nat,
    io: map<int, Ctx>, changes: seq<Change>, size: nat, fd: int, entry: bool, ch: Change, ctx: Ctx)
    requires Booked(io0, changes0, size0, io, changes, size, fd, entry, ch)
    requires fd in io && io[fd].idxplus1 <= |changes|
    requires ctx.idxplus1 == io[fd].idxplus1 && (ctx.idxplus1 > 0 || ctx.Wanted() == io[fd].Wanted())
    ensures Booked(io0, changes0, size0, io[fd := ctx], changes, size, fd, entry, ch)
  {
    forall f | f != fd ensures Pending(io[fd := ctx], changes, f) == Pending(io0, changes0, f) {
      assert Pending(io[fd := ctx], changes, f) == Pending(io, changes, f);
    }
  }

  lemma BookedSlot(
    io: map<int, Ctx>, changes: seq<Change>, size: nat,
    io': map<int, Ctx>, changes': seq<Change>, size': nat, fd: int, entry: bool, ch: Change)
    requires fd !in io && Booked(io[fd := NEW_CTX], changes, size, io', changes', size', fd, entry, ch)
    ensures Booked(io, changes, size, io', changes', size', fd, entry, ch)
    ensures Pending(io[fd := NEW_CTX], changes, fd) == Pending(io, changes, fd)
  {
    forall f | f != fd ensures Pending(io', changes', f) == Pending(io, changes, f) {
      assert Pending(io', changes', f) == Pending(io[fd := NEW_CTX], changes, f);
    }
  }

  /** The fds that a dispatch makes a system call about are those with something pending. */
  lemma {:induction false} TouchedIff(io: map<int, Ctx>, changes: seq<Change>, fd: int)
    requires Linked(io, changes)
    ensures (exists i :: 0 <= i < |changes| && !changes[i].Idle() && changes[i].fd == fd) <==>
              !Pending(io, changes, fd).Idle()
  {
    if fd in io && io[fd].idxplus1 > 0 {
      assert changes[io[fd].idxplus1 - 1].fd == fd;
    }
  }

  // What is pending for the fd of ev after it has been added with result r.
  ghost function PendingAdd(io: map<int, Ctx>, changes: seq<Change>, ev: Ev, r: int): Change {
    var ch := Pending(io, changes, ev.fd);
    if r == 1 then AddTo(ch, Minus(ev.kinds, Wanted(io, ev.fd))) else ch
  }

  // The pending change once an fd that asked for `from` asks for `to`.
  function Asked(ch: Change, from: Kinds, to: Kinds): Change {
    DelFrom(AddTo(ch, Minus(to, from)), Minus(from, to))
  }

  /** A delete of what the list itself was to add leaves nothing to do. */
  lemma AddedAndDeleted(fd: int, before: Kinds, ev: Kinds)
    ensures DelFrom(AddTo(IdleChange(fd, before), ev), ev).Idle() <==> Minus(before, ev) == before
  {
  }

  /** Asking for one more kind always leaves something to do, even after a delete of it. */
  lemma MoreIsPending(ch: Change, from: Kinds, to: Kinds)
    requires !Minus(to, from).Empty()
    ensures !Asked(ch, from, to).Idle()
  {
  }

  class EventBase {
    const useChangelist: bool
    var io: map<int, Ctx>
    var changes: seq<Change>
    var changesSize: nat
    var kernel: Kernel
    // fds whose registration something else than this base may have changed
    ghost var disturbed: set<int>

    ghost predicate Valid()
      reads this
    {
      && IoOk(io)
      && Linked(io, changes) && |changes| <= changesSize
      && AllCoherent(io, changes, kernel, disturbed)
      && (!useChangelist ==> |changes| == 0)
    }

    constructor (useChangelist: bool)
      ensures Valid() && this.useChangelist == useChangelist
      ensures io == map[] && kernel == map[] && disturbed == {} && changes == [] && changesSize == 0
    {
      this.useChangelist := useChangelist;
      io, changes, changesSize, kernel, disturbed := map[], [], 0, map[], {};
    }

    /** epoll_apply_one_change, with its retries */
    method ApplyOneChange(ch: Change) returns (r: int)
      requires ch.Sane()
      modifies this`kernel
      ensures r == 0 && kernel == Applied(old(kernel), ch)
    {
      TableCorrect(ch);
      var row := Lookup(ch);
      if row.events.Empty() {
        // EVUTIL_ASSERT(op == 0)
        assert row.op == CTL_NONE;
        return 0;
      }
      var (k, err) := EpollCtl(kernel, row.op, ch.fd, row.events);
      kernel := k;
      if err == SUCCESS {
        return 0;
      }
      if row.op == CTL_MOD && err == ENOENT {
        // closed and reopened since: retry as ADD
        var (k', err') := EpollCtl(kernel, CTL_ADD, ch.fd, row.events);
        kernel := k';
        return if err' == SUCCESS then 0 else -1;
      }
      if row.op == CTL_ADD && err == EEXIST {
        // precautionary add, or an item the kernel kept: retry as MOD
        var (k', err') := EpollCtl(kernel, CTL_MOD, ch.fd, row.events);
        kernel := k';
        return if err' == SUCCESS then 0 else -1;
      }
      if row.op == CTL_DEL && err == ENOENT {
        // the DEL was unnecessary
        assert kernel - {ch.fd} == kernel;
        return 0;
      }
      r := -1;
    }

    /** epoll_apply_changes */
    method ApplyChanges() returns (r: int)
      requires forall i | 0 <= i < |changes| :: changes[i].Sane()
      modifies this`kernel
      ensures r == 0 && kernel == AppliedAll(old(kernel), changes)
    {
      r := 0;
      var i := 0;
      while i < |changes|
        invariant 0 <= i <= |changes| && r == 0 && kernel == AppliedAll(old(kernel), changes[..i])
      {
        var one := ApplyOneChange(changes[i]);
        if one < 0 {
          r := -1;
        }
        assert changes[..i + 1][..i] == changes[..i];
        i := i + 1;
      }
      assert changes[..i] == changes;
    }

    /** event_changelist_remove_all_ */
    method RemoveAll()
      requires Linked(io, changes)
      modifies this`io, this`changes
      ensures changes == [] && Unlinked(io, old(io))
    {
      var i := 0;
      while i < |changes|
        invariant 0 <= i <= |changes| && changes == old(changes) && io.Keys == old(io).Keys
        invariant forall fd | fd in io ::
                    io[fd] == if old(io)[fd].idxplus1 <= i then old(io)[fd].(idxplus1 := 0) else old(io)[fd]
      {
        var fd := changes[i].fd;
        // EVUTIL_ASSERT(fdinfo->idxplus1 == i + 1)
        assert io[fd].idxplus1 == i + 1;
        io := io[fd := io[fd].(idxplus1 := 0)];
        i := i + 1;
      }
      changes := [];
    }

    // event_changelist_grow would be needed for an entry of fd.
    predicate NoRoomFor(fd: int)
      reads this
    {
      fd in io && io[fd].idxplus1 == 0 && |changes| == changesSize
    }

    /** event_changelist_get_or_construct: the index of the fd's entry, or -1 */
    method GetOrConstruct(fd: int, mallocOk: bool) returns (i: int)
      requires Valid() && fd in io
      modifies this`io, this`changes, this`changesSize
      ensures i == -1 <==> !mallocOk && old(NoRoomFor(fd))
      ensures i == -1 ==> io == old(io) && changes == old(changes) && changesSize == old(changesSize)
      ensures i != -1 ==>
                && 0 <= i < |changes| <= changesSize && SameIo(old(io), io) && IoOk(io) && Linked(io, changes)
                && AllCoherent(io, changes, kernel, disturbed) && fd in io && io[fd].idxplus1 == i + 1
                && Booked(old(io), old(changes), old(changesSize), io, changes, changesSize, fd, true, changes[i])
                && changes[i] == Pending(old(io), old(changes), fd)
      ensures changesSize == old(changesSize)
              || (i != -1 && old(NoRoomFor(fd)) && changesSize == if old(changesSize) < 64 then 64
                  else 2 * old(changesSize))
    {
      hide IoOk; hide AllCoherent; hide CoherentBut; hide Linked; hide SameIo; hide IdleChange; hide Booked; hide Grown;
      LinkedAt(io, changes, fd);
      SameIoSelf(io);
      if io[fd].idxplus1 == 0 {
        BookedNew(io, changes, changesSize, fd);
        if |changes| == changesSize {
          if !mallocOk {
            return -1;
          }
          GrownIs(changesSize);
          changesSize := Grown(changesSize);
        }
        NewEntry(io, changes, kernel, disturbed, fd);
        i := |changes|;
        var before := io[fd].Wanted();
        io := io[fd := io[fd].(idxplus1 := i + 1)];
        changes := changes + [IdleChange(fd, before)];
        SameIoOk(old(io), io);
      } else {
        BookedNone(io, changes, changesSize, fd, true);
        i := io[fd].idxplus1 - 1;
        // EVUTIL_ASSERT(change->fd == fd)
        assert changes[i].fd == fd;
      }
    }

    // Between the backend call and the storing of the counts, `fd` asks for `w`.
    ghost predicate Promised(fd: int, w: Kinds)
      reads this
    {
      && IoOk(io) && Linked(io, changes) && |changes| <= changesSize && fd in io
      && CoherentBut(io, changes, kernel, disturbed, fd, w)
      && (!useChangelist ==> |changes| == 0)
    }

    /** event_changelist_add_ or epoll_nochangelist_add */
    method BackendAdd(fd: int, before: Kinds, ev: Kinds, mallocOk: bool) returns (r: int)
      requires Valid() && fd in io && before == io[fd].Wanted() && !ev.Empty()
      modifies this`io, this`changes, this`changesSize, this`kernel, this`disturbed
      ensures r == if useChangelist && !mallocOk && old(NoRoomFor(fd)) then -1 else 0
      ensures SameIo(old(io), io) && disturbed == if useChangelist then old(disturbed) else old(disturbed) - {fd}
      ensures r == 0 ==> Promised(fd, Union(before, ev))
      ensures r == 0 && useChangelist ==>
                && io[fd].idxplus1 > 0
                && Booked(old(io), old(changes), old(changesSize), io, changes, changesSize, fd, true,
                          AddTo(Pending(old(io), old(changes), fd), ev))
      ensures r == -1 ==> Valid() && io == old(io) && changes == old(changes) && changesSize == old(changesSize)
      ensures useChangelist ==> kernel == old(kernel)
    {
      hide IoOk; hide CoherentBut; hide Linked; hide SameIo; hide Booked;
      SameIoSelf(io);
      if useChangelist {
        var i := GetOrConstruct(fd, mallocOk);
        if i == -1 {
          return -1;
        }
        PendingWants(io, changes, kernel, disturbed, fd);
        SameWanted(old(io), io, fd);
        LinkedAt(io, changes, fd);
        LinkedSane(io, changes, i);
        var ch := AddTo(changes[i], ev);
        SetChange(io, changes, kernel, disturbed, fd, ch);
        LinkedApart(io, changes, fd);
        BookedSet(old(io), old(changes), old(changesSize), io, changes, changesSize, fd, true, changes[i], ch);
        changes := changes[i := ch];
        r := 0;
      } else {
        var ch := AddTo(IdleChange(fd, before), ev);
        assert ch.Sane() && !ch.Idle() && ch.fd == fd;
        assert changes == [];
        ApplyNow(io, kernel, disturbed, ch);
        r := ApplyOneChange(ch);
        disturbed := disturbed - {fd};
      }
    }

    /** event_changelist_del_ or epoll_nochangelist_del */
    method BackendDel(fd: int, before: Kinds, ev: Kinds, mallocOk: bool) returns (r: int)
      requires Valid() && fd in io && before == io[fd].Wanted() && !ev.Empty()
      modifies this`io, this`changes, this`changesSize, this`kernel, this`disturbed
      ensures r == if useChangelist && !mallocOk && old(NoRoomFor(fd)) then -1 else 0
      ensures SameIo(old(io), io) && disturbed == if useChangelist then old(disturbed) else old(disturbed) - {fd}
      ensures r == 0 ==> Promised(fd, Minus(before, ev))
      ensures r == 0 && useChangelist ==>
                && io[fd].idxplus1 > 0
                && Booked(old(io), old(changes), old(changesSize), io, changes, changesSize, fd, true,
                          DelFrom(Pending(old(io), old(changes), fd), ev))
      ensures r == -1 ==> Valid() && io == old(io) && changes == old(changes) && changesSize == old(changesSize)
      ensures useChangelist ==> kernel == old(kernel)
    {
      hide IoOk; hide CoherentBut; hide Linked; hide SameIo; hide Booked;
      SameIoSelf(io);
      if useChangelist {
        var i := GetOrConstruct(fd, mallocOk);
        if i == -1 {
          return -1;
        }
        PendingWants(io, changes, kernel, disturbed, fd);
        SameWanted(old(io), io, fd);
        LinkedAt(io, changes, fd);
        LinkedSane(io, changes, i);
        var ch := DelFrom(changes[i], ev);
        SetChange(io, changes, kernel, disturbed, fd, ch);
        LinkedApart(io, changes, fd);
        BookedSet(old(io), old(changes), old(changesSize), io, changes, changesSize, fd, true, changes[i], ch);
        changes := changes[i := ch];
        r := 0;
      } else {
        // unlike the changelist, this one names the kind whatever was enabled
        var ch := Change(fd, before, if ev.r then DelIt else Keep, if ev.w then DelIt else Keep, if ev.c then DelIt
            else Keep);
        assert ch.Sane() && !ch.Idle() && ch.fd == fd;
        assert changes == [];
        ApplyNow(io, kernel, disturbed, ch);
        r := ApplyOneChange(ch);
        disturbed := disturbed - {fd};
      }
    }

    // The fds whose pending change makes a system call.
    ghost function Touched(): set<int>
      reads this
    {
      set i | 0 <= i < |changes| && !changes[i].Idle() :: changes[i].fd
    }

    // Store a new context for an fd that has been promised what it asks for.
    method Store(fd: int, ctx: Ctx)
      requires Promised(fd, ctx.Wanted()) && CtxOk(fd, ctx)
      modifies this`io
      ensures Valid() && SameIo(io, old(io)[fd := ctx])
      ensures fd in old(io) && io == old(io)[fd := ctx.(idxplus1 := old(io)[fd].idxplus1)]
    {
      hide IoOk; hide CoherentBut; hide Linked;
      StoreCounts(io, changes, kernel, disturbed, fd, ctx.(idxplus1 := io[fd].idxplus1));
      io := io[fd := ctx.(idxplus1 := io[fd].idxplus1)];
    }

    // Store them, and note that the books are in order.
    method StoreBooked(
      fd: int, ctx: Ctx, ghost io0: map<int, Ctx>, ghost changes0: seq<Change>, ghost size0: nat, ghost entry: bool,
      ghost ch: Change)
      requires Promised(fd, ctx.Wanted()) && CtxOk(fd, ctx) && SameIo(io0, io)
      requires useChangelist ==> Booked(io0, changes0, size0, io, changes, changesSize, fd, entry, ch)
      requires useChangelist ==> io[fd].idxplus1 > 0 || ctx.Wanted() == io[fd].Wanted()
      modifies this`io
      ensures Valid() && SameIo(io, io0[fd := ctx])
      ensures useChangelist ==> Booked(io0, changes0, size0, io, changes, changesSize, fd, entry, ch)
    {
      hide IoOk; hide CoherentBut; hide Linked; hide Booked; hide CtxOk; hide SameIo;
      LinkedAt(io, changes, fd);
      if useChangelist {
        BookedStore(io0, changes0, size0, io, changes, changesSize, fd, entry, ch, ctx.(idxplus1 := io[fd].idxplus1));
      }
      SameIoStored(io0, io, fd, ctx, io[fd].idxplus1);
      Store(fd, ctx);
    }

    // The part of evmap_io_add_ that has a slot to work with.
    method AddToSlot(ev: Ev, mallocOk: bool) returns (r: int)
      requires Valid() && !Holds(io, ev) && ev.fd in io
      modifies this`io, this`changes, this`changesSize, this`kernel, this`disturbed
      ensures Valid() && disturbed == if r == 1 && !useChangelist then old(disturbed) - {ev.fd} else old(disturbed)
      ensures r >= 0 ==> SameIo(io, old(io)[ev.fd := AddedCtx(old(io)[ev.fd], ev)])
      ensures r >= 0 ==> r == if Union(old(io)[ev.fd].Wanted(), ev.kinds) == old(io)[ev.fd].Wanted() then 0 else 1
      ensures r == -1 ==> SameIo(io, old(io))
      ensures r == 0 || r == 1 || r == -1
      ensures mallocOk || !useChangelist ==> (r == -1 <==> TooMany(old(io)[ev.fd], ev))
      ensures useChangelist ==>
                && kernel == old(kernel)
                && Booked(old(io), old(changes), old(changesSize), io, changes, changesSize, ev.fd, r == 1,
                          PendingAdd(old(io), old(changes), ev, r))
    {
      hide Linked; hide CoherentBut; hide Booked; hide SameIo; hide Pending; hide AddTo;
      var fd := ev.fd;
      var ctx := io[fd];
      assert CtxOk(fd, ctx);
      hide IoOk;
      SameIoSelf(io);
      BookedNone(io, changes, changesSize, fd, false);
      var before := ctx.Wanted();
      var nread := if ev.kinds.r then ctx.nread + 1 else ctx.nread;
      var nwrite := if ev.kinds.w then ctx.nwrite + 1 else ctx.nwrite;
      var nclose := if ev.kinds.c then ctx.nclose + 1 else ctx.nclose;
      var res := Kinds(ev.kinds.r && nread == 1, ev.kinds.w && nwrite == 1, ev.kinds.c && nclose == 1);
      if nread > 0xffff || nwrite > 0xffff || nclose > 0xffff {
        return -1;
      }
      AddedCtxOk(fd, ctx, ev);
      hide CtxOk;
      hide AddedCtx;
      r := 0;
      if !res.Empty() {
        var told := BackendAdd(fd, before, res, mallocOk);
        if told == -1 {
          return -1;
        }
        r := 1;
        assert res == Minus(ev.kinds, before);
        assert Union(before, res) == Union(before, ev.kinds);
      } else {
        Unasked(io, changes, kernel, disturbed, fd);
      }
      StoreBooked(fd, AddedCtx(ctx, ev), old(io), old(changes), old(changesSize), r == 1,
                  PendingAdd(old(io), old(changes), ev, r));
    }

    /** evmap_io_add_ */
    method EvmapAdd(ev: Ev, mallocOk: bool) returns (r: int)
      requires Valid() && !Holds(io, ev)
      modifies this`io, this`changes, this`changesSize, this`kernel, this`disturbed
      ensures Valid() && -1 <= r <= 1
      ensures disturbed == if r == 1 && !useChangelist then old(disturbed) - {ev.fd} else old(disturbed)
      ensures ev.fd < 0 ==> r == 0 && io == old(io) && kernel == old(kernel)
      ensures ev.fd >= 0 && r >= 0 ==> SameIo(io, WithEvent(old(io), ev))
      ensures ev.fd >= 0 && r >= 0 ==>
                r == if Union(Wanted(old(io), ev.fd), ev.kinds) == Wanted(old(io), ev.fd) then 0 else 1
      ensures r == -1 ==> SameIo(io, old(io)) || SameIo(io, WithSlot(old(io), ev.fd))
      ensures ev.fd >= 0 && mallocOk ==> (r == -1 <==> TooMany(WithSlot(old(io), ev.fd)[ev.fd], ev))
      ensures ev.fd >= 0 && mallocOk ==> (r == -1 <==> Crowded(EventsOf(old(io), ev.fd), ev.kinds))
      ensures EventsOf(io, ev.fd)
                == if ev.fd >= 0 && r >= 0 then [ev] + EventsOf(old(io), ev.fd) else EventsOf(old(io), ev.fd)
      ensures forall fd | fd != ev.fd :: EventsOf(io, fd) == EventsOf(old(io), fd)
      ensures mallocOk && r == -1 ==> SameIo(io, WithSlot(old(io), ev.fd))
      ensures useChangelist ==>
                && kernel == old(kernel)
                && Booked(old(io), old(changes), old(changesSize), io, changes, changesSize, ev.fd, r == 1,
                          PendingAdd(old(io), old(changes), ev, r))
    {
      hide IoOk; hide Linked; hide CoherentBut; hide Booked;
      BookedNone(io, changes, changesSize, ev.fd, false);
      if ev.fd < 0 {
        return 0;
      }
      SameIoSelf(io);
      CrowdedIs(io, ev);
      hide Crowded; hide EventsOf;
      if ev.fd !in io {
        if !mallocOk {
          return -1;
        }
        EmptySlot(io, changes, kernel, disturbed, ev.fd);
        io := io[ev.fd := NEW_CTX];
      }
      r := AddToSlot(ev, mallocOk);
      if ev.fd !in old(io) && useChangelist {
        BookedSlot(old(io), old(changes), old(changesSize), io, changes, changesSize, ev.fd, r == 1,
                   PendingAdd(old(io)[ev.fd := NEW_CTX], old(changes), ev, r));
      }
      if r >= 0 {
        AddedIs(old(io), io, ev);
      } else {
        SlotIs(old(io), io, ev.fd);
      }
    }

    // The part of evmap_io_del_ that tells the backend which kinds are gone.
    method TellGone(fd: int, res: Kinds, ghost w: Kinds, mallocOk: bool) returns (r: int)
      requires Valid() && fd in io && w == Minus(io[fd].Wanted(), res)
      modifies this`io, this`changes, this`changesSize, this`kernel, this`disturbed
      ensures Promised(fd, w) && SameIo(old(io), io) && -1 <= r <= 1
      ensures r == -1 <==> useChangelist && !mallocOk && !res.Empty() && old(NoRoomFor(fd))
      ensures r >= 0 ==> (r == 1 <==> !res.Empty())
      ensures disturbed == if r == -1 then old(disturbed) + {fd}
                else if r == 1 && !useChangelist then old(disturbed) - {fd} else old(disturbed)
      ensures r == -1 ==> io == old(io) && changes == old(changes) && changesSize == old(changesSize)
      ensures r == 1 && useChangelist ==> io[fd].idxplus1 > 0
      ensures r >= 0 && useChangelist ==>
                Booked(old(io), old(changes), old(changesSize), io, changes, changesSize, fd, r == 1,
                       DelFrom(Pending(old(io), old(changes), fd), res))
      ensures useChangelist ==> kernel == old(kernel)
    {
      hide IoOk; hide Linked; hide CoherentBut; hide Booked; hide SameIo;
      SameIoSelf(io);
      if res.Empty() {
        assert w == io[fd].Wanted();
        Unasked(io, changes, kernel, disturbed, fd);
        BookedNone(io, changes, changesSize, fd, false);
        return 0;
      }
      var told := BackendDel(fd, io[fd].Wanted(), res, mallocOk);
      if told == -1 {
        // the counts are stored all the same, but no change is on its way
        Forgotten(io, changes, kernel, disturbed, fd, w);
        disturbed := disturbed + {fd};
        return -1;
      }
      r := 1;
    }

    /** evmap_io_del_ of an event that is on the list */
    method EvmapDel(ev: Ev, mallocOk: bool) returns (r: int)
      requires Valid() && Holds(io, ev)
      modifies this`io, this`changes, this`changesSize, this`kernel, this`disturbed
      ensures Valid() && SameIo(io, WithoutEvent(old(io), ev)) && -1 <= r <= 1
      ensures CutOut(EventsOf(old(io), ev.fd), EventsOf(io, ev.fd), ev)
      ensures forall fd | fd != ev.fd :: EventsOf(io, fd) == EventsOf(old(io), fd)
      ensures r == -1 <==>
              && useChangelist && !mallocOk && old(NoRoomFor(ev.fd))
              && Wanted(WithoutEvent(old(io), ev), ev.fd) != Wanted(old(io), ev.fd)
      ensures r >= 0 ==> r == if Wanted(io, ev.fd) == Wanted(old(io), ev.fd) then 0 else 1
      ensures disturbed == if r == -1 then old(disturbed) + {ev.fd}
                else if r == 1 && !useChangelist then old(disturbed) - {ev.fd} else old(disturbed)
      ensures r == -1 ==>
                changes == old(changes) && changesSize == old(changesSize) && ev.fd in io && io[ev.fd].idxplus1 == 0
      ensures r >= 0 && useChangelist ==>
                Booked(old(io), old(changes), old(changesSize), io, changes, changesSize, ev.fd, r == 1,
                       DelFrom(Pending(old(io), old(changes), ev.fd), Minus(Wanted(old(io), ev.fd), Wanted(io, ev.fd))))
      ensures useChangelist ==> kernel == old(kernel)
    {
      hide Linked; hide CoherentBut; hide Booked; hide SameIo; hide RemovedCtx; hide CtxOk;
      var fd := ev.fd;
      var ctx := io[fd];
      assert CtxOk(fd, ctx);
      hide IoOk;
      RemovedCtxOk(fd, ctx, ev);
      var nread := if ev.kinds.r then ctx.nread - 1 else ctx.nread;
      var nwrite := if ev.kinds.w then ctx.nwrite - 1 else ctx.nwrite;
      var nclose := if ev.kinds.c then ctx.nclose - 1 else ctx.nclose;
      // the three EVUTIL_ASSERTs
      assert nread >= 0 && nwrite >= 0 && nclose >= 0;
      var res := Kinds(ev.kinds.r && nread == 0, ev.kinds.w && nwrite == 0, ev.kinds.c && nclose == 0);
      ghost var ctx' := RemovedCtx(ctx, ev);
      GoneKinds(ctx, ev, res);
      r := TellGone(fd, res, ctx'.Wanted(), mallocOk);
      SameIoStored(old(io), io, fd, ctx', io[fd].idxplus1);
      if useChangelist && r >= 0 {
        LinkedAt(io, changes, fd);
        SameWanted(old(io), io, fd);
        BookedStore(old(io), old(changes), old(changesSize), io, changes, changesSize, fd, r == 1,
                    DelFrom(Pending(old(io), old(changes), fd), res), ctx'.(idxplus1 := io[fd].idxplus1));
      }
      Store(fd, RemovedCtx(ctx, ev));
      hide CutOut; hide EventsOf;
      RemovedIs(old(io), io, ev);
    }

    /** Something else than this base changes what is registered for an fd. */
    method Disturb(fd: int, to: Kinds)
      requires Valid()
      modifies this`kernel, this`disturbed
      ensures Valid() && disturbed == old(disturbed) + {fd} && Registered(kernel, fd, to)
    {
      hide Linked;
      hide IoOk;
      assert forall f | f in io :: Coherent(f, io[f].idxplus1, Asks(io, f, -1, NONE), changes, kernel, f in disturbed);
      kernel := if to.Empty() then kernel - {fd} else kernel[fd := to];
      disturbed := disturbed + {fd};
    }

    // With nothing pending, the kernel has what the counts ask for.
    lemma InStep()
      requires Valid() && |changes| == 0
      ensures forall fd | fd !in disturbed :: Registered(kernel, fd, Wanted(io, fd))
    {
      forall fd | fd !in disturbed ensures Registered(kernel, fd, Wanted(io, fd)) {
        if fd in io {
          assert Coherent(fd, io[fd].idxplus1, Asks(io, fd, -1, NONE), changes, kernel, fd in disturbed);
        }
      }
    }

    /** The changelist part of epoll_dispatch */
    method Dispatch()
      requires Valid()
      modifies this`io, this`changes, this`kernel, this`disturbed
      ensures Valid() && changes == [] && Unlinked(io, old(io))
      ensures disturbed == old(disturbed) - old(Touched())
      ensures kernel == AppliedAll(old(kernel), old(changes))
    {
      hide IoOk;
      hide AllCoherent;
      hide Unlinked;
      var r := ApplyChanges();
      disturbed := disturbed - Touched();
      RemoveAll();
      UnlinkedOk(io, old(io));
      DispatchCoherent(old(io), old(changes), old(kernel), old(disturbed), io, disturbed);
    }
  }

  lemma DispatchCoherent(
    io: map<int, Ctx>, changes: seq<Change>, k: Kernel, disturbed: set<int>, io': map<int, Ctx>, disturbed': set<int>)
    requires IoOk(io) && Linked(io, changes) && AllCoherent(io, changes, k, disturbed)
    requires Unlinked(io', io)
    requires disturbed' == disturbed - (set i | 0 <= i < |changes| && !changes[i].Idle() :: changes[i].fd)
    ensures AllCoherent(io', [], AppliedAll(k, changes), disturbed')
  {
    var k' := AppliedAll(k, changes);
    IoPositive(io);
    hide IoOk;
    forall fd | fd in io' ensures Coherent(fd, 0, Asks(io', fd, -1, NONE), [], k', fd in disturbed') {
      assert Coherent(fd, io[fd].idxplus1, Asks(io, fd, -1, NONE), changes, k, fd in disturbed);
      hide Coherent; hide AppliedAll;
      DispatchedAt(io, changes, k, fd, fd in disturbed, fd in disturbed');
    }
    forall fd | fd in k' && fd !in disturbed' ensures fd in io' {
      if fd !in io {
        AppliedElsewhere(k, changes, fd);
      }
    }
  }

  // One fd at a dispatch.
  lemma {:induction false} DispatchedAt(
    io: map<int, Ctx>, changes: seq<Change>, k: Kernel, fd: int, disturbed: bool, disturbed': bool)
    requires Linked(io, changes) && fd in io && Coherent(fd, io[fd].idxplus1, io[fd].Wanted(), changes, k, disturbed)
    requires disturbed' <==> disturbed && !exists i :: 0 <= i < |changes| && !changes[i].Idle() && changes[i].fd == fd
    ensures Coherent(fd, 0, io[fd].Wanted(), [], AppliedAll(k, changes), disturbed')
  {
    if io[fd].idxplus1 > 0 {
      AppliedAt(k, changes, io[fd].idxplus1 - 1);
    } else {
      AppliedElsewhere(k, changes, fd);
    }
    hide AppliedAll;
  }

  lemma {:induction false} PendingWants(
    io: map<int, Ctx>, changes: seq<Change>, k: Kernel, disturbed: set<int>, fd: int)
    requires IoOk(io) && Linked(io, changes) && AllCoherent(io, changes, k, disturbed) && fd in io
              && io[fd].idxplus1 > 0
    ensures changes[io[fd].idxplus1 - 1].Wanted() == io[fd].Wanted()
  {
    assert Coherent(fd, io[fd].idxplus1, io[fd].Wanted(), changes, k, fd in disturbed);
  }

  lemma {:induction false} SameWanted(a: map<int, Ctx>, b: map<int, Ctx>, fd: int)
    requires SameIo(a, b) && fd in a
    ensures fd in b && a[fd].Wanted() == b[fd].Wanted()
  {
    assert a[fd].(idxplus1 := 0) == b[fd].(idxplus1 := 0);
  }
}
