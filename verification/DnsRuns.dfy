/**
  What evdns.c does with its request tables: submitting, transmitting, finishing and
  pumping requests, servers that fail and come back, and a new limit on requests in
  flight, in every order in which these can happen.
*/
module DnsRuns {
  import opened Basics
  import opened Lists
  import opened DnsServers
  import opened DnsRequests

  /** The same requests under the same ids; a server or the sent mark may differ. */
  ghost predicate Same(reqs0: Requests, reqs: Requests) {
    && reqs.Keys == reqs0.Keys
    && forall r | r in reqs0 ::
      && reqs[r].id == reqs0[r].id && reqs[r].ns.Some? == reqs0[r].ns.Some?
      && (reqs0[r].sent ==> reqs[r].sent) && (reqs[r].ns.None? ==> reqs[r] == reqs0[r])
  }

  /** No request goes to another server. */
  ghost predicate Stay(reqs0: Requests, reqs: Requests) {
    reqs.Keys == reqs0.Keys && forall r | r in reqs0 :: reqs[r].ns == reqs0[r].ns
  }

  /** A request that goes to another server goes to one of these. */
  ghost predicate MovedTo(reqs0: Requests, reqs: Requests, servers: set<nat>) {
    forall r | r in reqs0 && r in reqs && reqs[r].ns != reqs0[r].ns ::
      reqs[r].ns.Some? && reqs[r].ns.value in servers
  }

  lemma MovedFurther(a: Requests, b: Requests, c: Requests, up: set<nat>, up': set<nat>)
    requires MovedTo(a, b, up) && MovedTo(b, c, up') && up' <= up && b.Keys == a.Keys
    ensures MovedTo(a, c, up)
  {
  }

  lemma StayFurther(a: Requests, b: Requests, c: Requests)
    requires Stay(a, b) && Stay(b, c)
    ensures Stay(a, c)
  {
  }

  // The tables and lists that neither a transmission nor a failing server touches.
  twostate predicate Untouched(b: DnsBase)
    reads b
  {
    && b.heads == old(b.heads) && b.waiting == old(b.waiting) && b.inflight == old(b.inflight)
        && b.maxInflight == old(b.maxInflight)
    && b.load.Keys == old(b.load).Keys
  }

  lemma Bucket(b: DnsBase, i: nat, j: nat)
    requires b.Valid() && i < |b.heads| && j < |b.heads[i]|
    ensures b.heads[i][j] in b.reqs && b.reqs[b.heads[i][j]].ns.Some?
  {
    assert b.heads[i][j] in b.heads[i];
  }

  // Nothing in the first i buckets, and in the first j places of the next, is unsent on s.
  ghost predicate Cleared(reqs: Requests, heads: seq<seq<nat>>, i: nat, j: nat, s: nat) {
    forall a, c | 0 <= a < |heads| && 0 <= c < |heads[a]| && (a < i || (a == i && c < j)) && heads[a][c] in reqs ::
      reqs[heads[a][c]].ns == Some(s) ==> reqs[heads[a][c]].sent
  }

  // A server is no longer counted as good.
  method MarkDown(b: DnsBase, s: nat)
    requires b.Valid() && s in b.up
    modifies b`up, b`good
    ensures b.Valid() && b.up == old(b.up) - {s} && b.good == old(b.good) - 1
  {
    hide BucketsOk; hide WaitingOk; hide IdsOk; hide LoadsOk; hide Lengths; hide Flying;
    b.good := b.good - 1;
    b.up := b.up - {s};
  }

  // One request, still to be sent to s, goes elsewhere.
  method Reassign(b: DnsBase, r: nat, s: nat)
    requires b.Valid() && r in b.reqs && b.reqs[r].ns.Some? && s !in b.up && b.good > 0
    modifies b`reqs, b`load, b`ring
    ensures b.Valid() && Untouched(b) && Same(old(b.reqs), b.reqs)
    ensures b.reqs[r].ns == Some(s) ==> b.reqs[r].sent
    ensures forall x | x in b.reqs && x != r :: b.reqs[x] == old(b.reqs)[x]
    ensures MovedTo(old(b.reqs), b.reqs, b.up)
  {
    hide DnsBase.Valid; hide Picked;
    if !b.reqs[r].sent && b.reqs[r].ns == Some(s) {
      var other := b.Pick();
      b.SwapServer(r, other);
    }
  }

  /** nameserver_failed: if another server is good, nothing unsent stays with this one, and it goes to good ones */
  method ServerFailed(b: DnsBase, s: nat)
    requires b.Valid()
    modifies b`reqs, b`load, b`ring, b`up, b`good
    ensures b.Valid() && Untouched(b) && Same(old(b.reqs), b.reqs) && b.up == old(b.up) - {s}
    ensures s in old(b.up) && b.up != {} ==> forall r | r in b.reqs && b.reqs[r].ns == Some(s) :: b.reqs[r].sent
    ensures s !in old(b.up) ==> b.reqs == old(b.reqs) && b.ring == old(b.ring)
    ensures MovedTo(old(b.reqs), b.reqs, b.up)
  {
    hide DnsBase.Valid;
    if s !in b.up {
      return;
    }
    MarkDown(b, s);
    GoodCount(b);
    if b.good == 0 {
      return;
    }
    for i := 0 to |b.heads|
      invariant b.Valid() && Untouched(b) && Same(old(b.reqs), b.reqs) && Cleared(b.reqs, b.heads, i, 0, s)
      invariant b.up == old(b.up) - {s} && b.good > 0 && MovedTo(old(b.reqs), b.reqs, b.up)
    {
      ghost var reqs1 := b.reqs;
      ClearBucket(b, i, s);
      MovedFurther(old(b.reqs), reqs1, b.reqs, b.up, b.up);
    }
    AllCleared(b, s);
  }

  lemma GoodCount(b: DnsBase)
    requires b.Valid()
    ensures b.good == |b.up| && (b.good == 0 <==> b.up == {})
  {
  }

  method ClearBucket(b: DnsBase, i: nat, s: nat)
    requires b.Valid() && i < |b.heads| && s !in b.up && b.good > 0 && Cleared(b.reqs, b.heads, i, 0, s)
    modifies b`reqs, b`load, b`ring
    ensures b.Valid() && Untouched(b) && Same(old(b.reqs), b.reqs) && Cleared(b.reqs, b.heads, i + 1, 0, s)
    ensures MovedTo(old(b.reqs), b.reqs, b.up)
  {
    hide DnsBase.Valid;
    for j := 0 to |b.heads[i]|
      invariant b.Valid() && Untouched(b) && Same(old(b.reqs), b.reqs) && Cleared(b.reqs, b.heads, i, j, s)
      invariant MovedTo(old(b.reqs), b.reqs, b.up)
    {
      Bucket(b, i, j);
      ghost var reqs1 := b.reqs;
      Reassign(b, b.heads[i][j], s);
      MovedFurther(old(b.reqs), reqs1, b.reqs, b.up, b.up);
    }
  }

  lemma AllCleared(b: DnsBase, s: nat)
    requires b.Valid() && Cleared(b.reqs, b.heads, |b.heads|, 0, s)
    ensures forall r | r in b.reqs && b.reqs[r].ns == Some(s) :: b.reqs[r].sent
  {
    forall r | r in b.reqs && b.reqs[r].ns == Some(s) ensures b.reqs[r].sent {
      var a := BucketOf(b.reqs[r].id, |b.heads|);
      assert r in b.heads[a];
      var c :| 0 <= c < |b.heads[a]| && b.heads[a][c] == r;
    }
  }

  // As long as no server has failed, no request moves; those that do go to good servers.
  twostate predicate Settled(b: DnsBase)
    reads b
  {
    && b.up <= old(b.up) && MovedTo(old(b.reqs), b.reqs, old(b.up))
    && (b.up == old(b.up) ==> b.ring == old(b.ring) && Stay(old(b.reqs), b.reqs))
  }

  /** What becomes of a datagram: taken, not for now (EAGAIN, or a choked server), or the end of its server. */
  datatype Sending = Taken | Blocked | Failed

  /**
    The network, as far as one call meets it: what becomes of request r when it is sent
    first, and of those that are tried again in the n-th round, if they are.
  */
  datatype Net = Net(first: nat -> Sending, again: (nat, nat) -> Option<Sending>)

  /** evdns_request_transmit */
  method Transmit(b: DnsBase, r: nat, how: Sending)
    requires b.Valid() && r in b.reqs && b.reqs[r].ns.Some?
    modifies b`reqs, b`load, b`ring, b`up, b`good
    ensures b.Valid() && Untouched(b) && Same(old(b.reqs), b.reqs) && Settled(b)
    ensures b.up == if how.Failed? then old(b.up) - {old(b.reqs)[r].ns.value} else old(b.up)
    ensures how.Blocked? ==> b.reqs == old(b.reqs)
    ensures how.Taken? ==> b.reqs == old(b.reqs)[r := old(b.reqs)[r].(sent := true)]
    ensures how.Failed? ==> r in b.reqs && b.reqs[r].sent
  {
    IdInRange(b, r);
    hide DnsBase.Valid; hide Same; hide Stay; hide MovedTo;
    // EVUTIL_ASSERT(req->trans_id != 0xffff)
    assert b.reqs[r].id != NO_ID;
    SameStill(b.reqs);
    NobodyMoves(b.reqs, b.up);
    match how {
      case Blocked =>
      case Taken =>
        SameSent(b.reqs, b.reqs, r);
        b.MarkSent(r, true);
        SettledSent(old(b.reqs), old(b.reqs), b.reqs, r);
      case Failed =>
        SendFails(b, r);
    }
  }

  // The server has failed; the request will time out.
  method SendFails(b: DnsBase, r: nat)
    requires b.Valid() && r in b.reqs && b.reqs[r].ns.Some?
    modifies b`reqs, b`load, b`ring, b`up, b`good
    ensures b.Valid() && Untouched(b) && Same(old(b.reqs), b.reqs) && Settled(b)
    ensures b.up == old(b.up) - {old(b.reqs)[r].ns.value} && r in b.reqs && b.reqs[r].sent
  {
    hide DnsBase.Valid; hide Same; hide Stay; hide MovedTo;
    ServerFailed(b, b.reqs[r].ns.value);
    SameSent(old(b.reqs), b.reqs, r);
    ghost var reqs1 := b.reqs;
    b.MarkSent(r, true);
    SettledSent(old(b.reqs), reqs1, b.reqs, r);
    MovedFewer(old(b.reqs), b.reqs, b.up, old(b.up));
  }

  lemma MovedFewer(reqs0: Requests, reqs: Requests, up: set<nat>, up0: set<nat>)
    requires MovedTo(reqs0, reqs, up) && up <= up0
    ensures MovedTo(reqs0, reqs, up0)
  {
  }

  lemma SettledSent(reqs0: Requests, reqs1: Requests, reqs: Requests, r: nat)
    requires r in reqs1 && reqs == reqs1[r := reqs1[r].(sent := true)]
    ensures Stay(reqs1, reqs) && (forall up :: MovedTo(reqs0, reqs1, up) ==> MovedTo(reqs0, reqs, up))
    ensures reqs0 == reqs1 ==> Stay(reqs0, reqs)
  {
  }

  lemma SameStill(reqs: Requests)
    ensures Same(reqs, reqs)
  {
  }

  lemma SameSent(reqs0: Requests, reqs: Requests, r: nat)
    requires Same(reqs0, reqs) && r in reqs0 && reqs0[r].ns.Some?
    ensures r in reqs && reqs[r].ns.Some? && Same(reqs0, reqs[r := reqs[r].(sent := true)])
  {
  }

  lemma IdInRange(b: DnsBase, r: nat)
    requires b.Valid() && r in b.reqs && b.reqs[r].ns.Some?
    ensures b.reqs[r].id < NO_ID
  {
  }

  // What was to go out again has gone out, unless it was blocked.
  ghost predicate GoneOut(reqs: Requests, heads: seq<seq<nat>>, i: nat, j: nat, again: nat -> Option<Sending>) {
    forall a, c | 0 <= a < |heads| && 0 <= c < |heads[a]| && (a < i || (a == i && c < j)) && heads[a][c] in reqs ::
      again(heads[a][c]) == Some(Taken) || again(heads[a][c]) == Some(Failed) ==> reqs[heads[a][c]].sent
  }

  lemma GoneStill(
    reqs0: Requests, reqs: Requests, heads: seq<seq<nat>>, i: nat, j: nat, again: nat -> Option<Sending>)
    requires GoneOut(reqs0, heads, i, j, again) && Same(reqs0, reqs)
    ensures GoneOut(reqs, heads, i, j, again)
  {
  }

  lemma GoneMore(reqs: Requests, heads: seq<seq<nat>>, i: nat, j: nat, again: nat -> Option<Sending>)
    requires GoneOut(reqs, heads, i, j, again) && i < |heads| && j < |heads[i]| && heads[i][j] in reqs
    requires again(heads[i][j]) == Some(Taken) || again(heads[i][j]) == Some(Failed) ==> reqs[heads[i][j]].sent
    ensures GoneOut(reqs, heads, i, j + 1, again)
  {
  }

  /** evdns_transmit: the requests in flight that are marked for it are tried again */
  method TransmitAll(b: DnsBase, again: nat -> Option<Sending>)
    requires b.Valid()
    modifies b`reqs, b`load, b`ring, b`up, b`good
    ensures b.Valid() && Untouched(b) && Same(old(b.reqs), b.reqs) && Settled(b)
    ensures forall r | r in b.reqs && b.reqs[r].ns.Some? ::
              again(r) == Some(Taken) || again(r) == Some(Failed) ==> b.reqs[r].sent
  {
    hide DnsBase.Valid; hide Stay; hide MovedTo; hide GoneOut; hide Same;
    SameStill(b.reqs);
    NobodyMoves(b.reqs, b.up);
    GoneStart(b.reqs, b.heads, again);
    for i := 0 to |b.heads|
      invariant b.Valid() && Untouched(b) && Same(old(b.reqs), b.reqs) && Settled(b)
      invariant GoneOut(b.reqs, b.heads, i, 0, again)
    {
      TransmitBucket(b, i, again, old(b.reqs), old(b.up), old(b.ring));
    }
    AllGone(b, again);
  }

  // The walk round one list.
  method TransmitBucket(
    b: DnsBase, i: nat, again: nat -> Option<Sending>, ghost reqs0: Requests, ghost up0: set<nat>,
    ghost ring0: seq<nat>)
    requires b.Valid() && i < |b.heads| && GoneOut(b.reqs, b.heads, i, 0, again) && Same(reqs0, b.reqs)
    requires b.up <= up0 && MovedTo(reqs0, b.reqs, up0) && (b.up == up0 ==> b.ring == ring0 && Stay(reqs0, b.reqs))
    modifies b`reqs, b`load, b`ring, b`up, b`good
    ensures b.Valid() && Untouched(b) && Same(reqs0, b.reqs) && GoneOut(b.reqs, b.heads, i + 1, 0, again)
    ensures b.up <= up0 && MovedTo(reqs0, b.reqs, up0) && (b.up == up0 ==> b.ring == ring0 && Stay(reqs0, b.reqs))
  {
    hide DnsBase.Valid; hide Stay; hide MovedTo; hide GoneOut; hide Same;
    for j := 0 to |b.heads[i]|
      invariant b.Valid() && Untouched(b) && Same(reqs0, b.reqs) && GoneOut(b.reqs, b.heads, i, j, again)
      invariant b.up <= up0 && MovedTo(reqs0, b.reqs, up0) && (b.up == up0 ==> b.ring == ring0 && Stay(reqs0, b.reqs))
    {
      Bucket(b, i, j);
      var r := b.heads[i][j];
      if again(r).Some? {
        ghost var reqs1, up1, ring1 := b.reqs, b.up, b.ring;
        Transmit(b, r, again(r).value);
        GoneStill(reqs1, b.reqs, b.heads, i, j, again);
        SameKeys(reqs0, reqs1);
        SameKeys(reqs1, b.reqs);
        SameTwice(reqs0, reqs1, b.reqs);
        MovedFurther(reqs0, reqs1, b.reqs, up0, up1);
        if b.up == up0 {
          assert up1 == up0;
          StayFurther(reqs0, reqs1, b.reqs);
        }
      }
      GoneMore(b.reqs, b.heads, i, j, again);
    }
    GoneNext(b.reqs, b.heads, i, again);
  }

  lemma SameTwice(a: Requests, b: Requests, c: Requests)
    requires Same(a, b) && Same(b, c)
    ensures Same(a, c)
  {
  }

  lemma GoneStart(reqs: Requests, heads: seq<seq<nat>>, again: nat -> Option<Sending>)
    ensures GoneOut(reqs, heads, 0, 0, again)
  {
  }

  lemma GoneNext(reqs: Requests, heads: seq<seq<nat>>, i: nat, again: nat -> Option<Sending>)
    requires i < |heads| && GoneOut(reqs, heads, i, |heads[i]|, again)
    ensures GoneOut(reqs, heads, i + 1, 0, again)
  {
  }

  lemma AllGone(b: DnsBase, again: nat -> Option<Sending>)
    requires b.Valid() && GoneOut(b.reqs, b.heads, |b.heads|, 0, again)
    ensures forall r | r in b.reqs && b.reqs[r].ns.Some? ::
              again(r) == Some(Taken) || again(r) == Some(Failed) ==> b.reqs[r].sent
  {
    forall r | r in b.reqs && b.reqs[r].ns.Some?
      ensures again(r) == Some(Taken) || again(r) == Some(Failed) ==> b.reqs[r].sent
    {
      var a := BucketOf(b.reqs[r].id, |b.heads|);
      assert r in b.heads[a];
      var c :| 0 <= c < |b.heads[a]| && b.heads[a][c] == r;
    }
  }

  lemma NobodyMoves(reqs: Requests, up: set<nat>)
    ensures Stay(reqs, reqs) && MovedTo(reqs, reqs, up)
  {
  }

  // ------------------------------------------------------------------------
  // Requests come, wait, fly and finish

  /** What was in flight still is, under its id; what waited still waits, or flies now. */
  ghost predicate Promoted(reqs0: Requests, reqs: Requests) {
    && reqs.Keys == reqs0.Keys
    && forall r | r in reqs0 ::
      && (reqs0[r].ns.Some? ==> reqs[r].ns.Some? && reqs[r].id == reqs0[r].id && (reqs0[r].sent ==> reqs[r].sent))
      && (reqs[r].ns.None? ==> reqs[r] == reqs0[r])
  }

  lemma SamePromoted(a: Requests, b: Requests, c: Requests)
    requires Promoted(a, b) && Same(b, c)
    ensures Promoted(a, c)
  {
  }

  lemma PromotedStill(reqs: Requests)
    ensures Promoted(reqs, reqs)
  {
  }

  lemma PromotedMore(reqs0: Requests, reqs: Requests, r: nat, req: Request)
    requires Promoted(reqs0, reqs) && r in reqs && reqs[r].ns.None? && req.ns.Some?
    ensures Promoted(reqs0, reqs[r := req])
  {
  }

  // q is what is left of q0 after some have been served from the front.
  ghost predicate Rest(q0: seq<nat>, q: seq<nat>) {
    |q| <= |q0| && q == q0[|q0| - |q|..]
  }

  lemma RestNext(q0: seq<nat>, q: seq<nat>)
    requires Rest(q0, q) && |q| > 0
    ensures Rest(q0, q[1..]) && |q| <= |q0| && q[0] == q0[|q0| - |q|]
  {
  }

  lemma WaitingHead(b: DnsBase)
    requires b.Valid() && b.waitingCount > 0
    ensures |b.waiting| > 0 && b.waiting[0] in b.reqs && b.reqs[b.waiting[0]].ns.None?
    ensures Without(b.waiting, b.waiting[0]) == b.waiting[1..]
  {
    assert b.waiting[0] in b.waiting;
  }

  // The first request that waits moves to the requests in flight.
  method Promote(b: DnsBase, s: nat) returns (r: nat)
    requires b.Valid() && b.waitingCount > 0 && b.inflight < b.maxInflight && s in b.load
    modifies b`reqs, b`heads, b`waiting, b`inflight, b`waitingCount, b`load
    ensures b.Valid() && b.load.Keys == old(b.load).Keys && Promoted(old(b.reqs), b.reqs)
    ensures |old(b.waiting)| > 0 && b.waiting == old(b.waiting)[1..] && b.inflight == old(b.inflight) + 1
    ensures r == old(b.waiting)[0] && r in b.reqs && b.reqs[r].ns == Some(s)
    ensures forall x | x in b.reqs && x != r :: x in old(b.reqs) && b.reqs[x] == old(b.reqs)[x]
  {
    Limits(b);
    hide DnsBase.Valid; hide Promoted; hide Without; hide Unused;
    WaitingHead(b);
    ghost var reqs0 := b.reqs;
    r := b.waiting[0];
    var id := b.SomeId();
    TakeOff(b, r, id, s);
    PromotedStill(reqs0);
    PromotedMore(reqs0, reqs0, r, Request(id, Some(s), false));
  }

  method TakeOff(b: DnsBase, r: nat, id: nat, s: nat)
    requires b.Valid() && r in b.reqs && b.reqs[r].ns.None? && s in b.load && id < NO_ID && Unused(b.reqs, id)
    modifies b`reqs, b`heads, b`waiting, b`inflight, b`waitingCount, b`load
    ensures b.Valid() && b.load.Keys == old(b.load).Keys && b.inflight == old(b.inflight) + 1
    ensures b.reqs == old(b.reqs)[r := Request(id, Some(s), false)]
    ensures r in old(b.waiting) && b.waiting == Without(old(b.waiting), r)
  {
    hide DnsBase.Valid; hide Without; hide Unused;
    ghost var reqs0 := b.reqs;
    UnusedWithout(b.reqs, r, id);
    b.DetachWaiting(r);
    b.AttachFlying(r, Request(id, Some(s), false));
    assert (reqs0 - {r})[r := Request(id, Some(s), false)] == reqs0[r := Request(id, Some(s), false)];
  }

  // One turn of the loop of evdns_requests_pump_waiting_queue, a server having been found.
  method Launch(b: DnsBase, s: nat, how: Sending, again: nat -> Option<Sending>)
    requires b.Valid() && b.waitingCount > 0 && b.inflight < b.maxInflight && s in b.load
    modifies b`reqs, b`heads, b`waiting, b`inflight, b`waitingCount, b`load, b`ring, b`up, b`good
    ensures b.Valid() && b.load.Keys == old(b.load).Keys && b.up <= old(b.up) && Promoted(old(b.reqs), b.reqs)
    ensures |old(b.waiting)| > 0 && b.waiting == old(b.waiting)[1..] && b.inflight == old(b.inflight) + 1
    ensures Launched(old(b.reqs), b.reqs, old(b.waiting)[0], s, old(b.up))
    ensures !how.Blocked? ==> b.reqs[old(b.waiting)[0]].sent
    ensures forall x | x in b.reqs && b.reqs[x].ns.Some? ::
              again(x) == Some(Taken) || again(x) == Some(Failed) ==> b.reqs[x].sent
    ensures b.up == old(b.up) ==> b.ring == old(b.ring) && Landed(old(b.reqs), b.reqs, old(b.waiting)[0], s)
  {
    hide DnsBase.Valid; hide Promoted; hide Same; hide Stay; hide MovedTo; hide Launched; hide Landed;
    var r := Promote(b, s);
    ghost var reqs1 := b.reqs;
    Transmit(b, r, how);
    SamePromoted(old(b.reqs), reqs1, b.reqs);
    SameKeys(reqs1, b.reqs);
    ghost var reqs2, up2 := b.reqs, b.up;
    TransmitAll(b, again);
    SentStill(reqs2, b.reqs, r);
    SamePromoted(old(b.reqs), reqs2, b.reqs);
    SameKeys(reqs2, b.reqs);
    MovedFurther(reqs1, reqs2, b.reqs, old(b.up), up2);
    LaunchedIs(old(b.reqs), reqs1, b.reqs, r, s, old(b.up));
    LaunchedFlies(old(b.reqs), b.reqs, r, s, old(b.up));
    if b.up == old(b.up) {
      StayFurther(reqs1, reqs2, b.reqs);
      LandedIs(old(b.reqs), reqs1, b.reqs, r, s);
    }
  }

  /** Request r has been given server s or another one of these, and so has whoever else moved. */
  ghost predicate Launched(reqs0: Requests, reqs: Requests, r: nat, s: nat, servers: set<nat>) {
    && r in reqs && reqs[r].ns.Some? && (reqs[r].ns.value == s || reqs[r].ns.value in servers)
    && forall x | x in reqs0 && x in reqs && x != r && reqs[x].ns != reqs0[x].ns ::
      reqs[x].ns.Some? && reqs[x].ns.value in servers
  }

  /** Request r is with server s, and nobody else has moved. */
  ghost predicate Landed(reqs0: Requests, reqs: Requests, r: nat, s: nat) {
    && r in reqs && reqs[r].ns == Some(s)
    && forall x | x in reqs && x != r :: x in reqs0 && reqs[x].ns == reqs0[x].ns
  }

  lemma SameKeys(a: Requests, b: Requests)
    requires Same(a, b)
    ensures a.Keys == b.Keys && forall r | r in a :: b[r].ns.Some? == a[r].ns.Some?
  {
  }

  lemma LaunchedFlies(reqs0: Requests, reqs: Requests, r: nat, s: nat, up: set<nat>)
    requires Launched(reqs0, reqs, r, s, up)
    ensures r in reqs && reqs[r].ns.Some?
  {
  }

  lemma SentStill(a: Requests, b: Requests, r: nat)
    requires Same(a, b) && r in a
    ensures r in b && (a[r].sent ==> b[r].sent)
  {
  }

  lemma LaunchedIs(reqs0: Requests, reqs1: Requests, reqs: Requests, r: nat, s: nat, up: set<nat>)
    requires r in reqs1 && reqs1[r].ns == Some(s) && reqs.Keys == reqs1.Keys && MovedTo(reqs1, reqs, up)
    requires forall x | x in reqs1 && x != r :: x in reqs0 && reqs1[x] == reqs0[x]
    ensures Launched(reqs0, reqs, r, s, up)
  {
  }

  lemma LandedIs(reqs0: Requests, reqs1: Requests, reqs: Requests, r: nat, s: nat)
    requires r in reqs1 && reqs1[r].ns == Some(s) && Stay(reqs1, reqs)
    requires forall x | x in reqs1 && x != r :: x in reqs0 && reqs1[x] == reqs0[x]
    ensures Landed(reqs0, reqs, r, s)
  {
  }

  lemma UnusedWithout(reqs: Requests, r: nat, id: nat)
    requires Unused(reqs, id)
    ensures Unused(reqs - {r}, id)
  {
  }

  lemma Limits(b: DnsBase)
    requires b.Valid()
    ensures 1 <= b.maxInflight <= MAX_INFLIGHT && b.waitingCount == |b.waiting|
    ensures b.ring == [] <==> b.load.Keys == {}
  {
    if |b.ring| > 0 {
      assert b.ring[0] in b.ring && b.ring[0] in b.load.Keys;
    }
    if b.load.Keys != {} {
      var s :| s in b.load.Keys;
      assert s in b.ring;
    }
  }

  /** The first n of q0 are with the servers that n picks in a row choose, and nobody else has moved. */
  ghost predicate InPickOrder(
    q0: seq<nat>, n: nat, ring: seq<nat>, up: set<nat>, good: int, reqs0: Requests, reqs: Requests)
  {
    && n <= |q0|
    && (forall j: nat | j < n :: q0[j] in reqs && reqs[q0[j]].ns == Picks(ring, up, good, n)[j])
    && (forall x | x in reqs && x !in q0[..n] :: x in reqs0 && reqs[x].ns == reqs0[x].ns)
  }

  lemma NoneInOrder(q0: seq<nat>, ring: seq<nat>, up: set<nat>, good: int, reqs: Requests)
    ensures InPickOrder(q0, 0, ring, up, good, reqs, reqs)
  {
  }

  lemma {:induction false} OneMoreInOrder(
    q0: seq<nat>, n: nat, ring: seq<nat>, up: set<nat>, good: int, reqs0: Requests, reqs1: Requests, reqs: Requests)
    requires NoDup(q0) && n < |q0| && InPickOrder(q0, n, ring, up, good, reqs0, reqs1) && reqs1.Keys <= reqs.Keys
    requires var s := Picked(After(ring, up, good, n), up, good).0; s.Some? && Landed(reqs1, reqs, q0[n], s.value)
    ensures InPickOrder(q0, n + 1, ring, up, good, reqs0, reqs)
  {
    PicksMore(ring, up, good, n);
    hide Picked; hide Picks; hide After;
    assert q0[..n + 1] == q0[..n] + [q0[n]];
    forall j: nat | j < n + 1 ensures q0[j] in reqs && reqs[q0[j]].ns == Picks(ring, up, good, n + 1)[j] {
      if j < n {
        assert q0[j] in reqs1 && q0[j] != q0[n];
      }
    }
  }

  /** Whoever has another server than before has one that was good, unless none was good in the end. */
  ghost predicate WellPlaced(reqs0: Requests, reqs: Requests, up0: set<nat>, up: set<nat>) {
    forall x | x in reqs0 && x in reqs && reqs[x].ns != reqs0[x].ns && (reqs0[x].ns.Some? || up != {}) ::
      reqs[x].ns.Some? && reqs[x].ns.value in up0
  }

  lemma {:induction false} OneMorePlaced(
    reqs0: Requests, reqs1: Requests, reqs: Requests, r: nat, s: nat, up0: set<nat>, up1: set<nat>, up: set<nat>)
    requires WellPlaced(reqs0, reqs1, up0, up1) && Launched(reqs1, reqs, r, s, up1) && up <= up1 <= up0
    requires r in reqs1 && reqs1[r].ns.None? && (up1 != {} ==> s in up1)
    requires reqs1.Keys == reqs0.Keys && reqs.Keys == reqs1.Keys && Promoted(reqs0, reqs1)
    ensures WellPlaced(reqs0, reqs, up0, up)
  {
  }

  lemma NonePlaced(reqs: Requests, up: set<nat>)
    ensures WellPlaced(reqs, reqs, up, up)
  {
  }

  /**
    evdns_requests_pump_waiting_queue: no request waits that could fly, first come first
    served, and each goes to the server that is picked for it
  */
  method Pump(b: DnsBase, net: Net)
    requires b.Valid()
    modifies b`reqs, b`heads, b`waiting, b`inflight, b`waitingCount, b`load, b`ring, b`up, b`good
    ensures b.Valid() && b.load.Keys == old(b.load).Keys && b.up <= old(b.up)
    ensures b.waiting == [] || b.inflight >= b.maxInflight || b.ring == []
    ensures Promoted(old(b.reqs), b.reqs) && Rest(old(b.waiting), b.waiting)
    ensures WellPlaced(old(b.reqs), b.reqs, old(b.up), b.up)
    ensures AllSent(b.reqs, old(b.waiting), |old(b.waiting)| - |b.waiting|, net)
    ensures b.up == old(b.up) ==>
              var n := |old(b.waiting)| - |b.waiting|;
              && InPickOrder(old(b.waiting), n, old(b.ring), b.up, b.good, old(b.reqs), b.reqs)
              && b.ring == After(old(b.ring), b.up, b.good, n)
  {
    hide DnsBase.Valid; hide Promoted; hide Rest; hide InPickOrder; hide WellPlaced; hide After; hide PumpedSoFar;
    GoodCount(b);
    ghost var q0, ring0, up0, good0, reqs0 := b.waiting, b.ring, b.up, b.good, b.reqs;
    var n := PumpLoop(b, net);
    GoodCount(b);
    PumpedMeans(b, n, net, q0, ring0, up0, good0, reqs0);
  }

  method PumpLoop(b: DnsBase, net: Net) returns (n: nat)
    requires b.Valid()
    modifies b`reqs, b`heads, b`waiting, b`inflight, b`waitingCount, b`load, b`ring, b`up, b`good
    ensures b.Valid() && b.load.Keys == old(b.load).Keys
    ensures b.waiting == [] || b.inflight >= b.maxInflight || b.ring == []
    ensures PumpedSoFar(b, n, net, old(b.waiting), old(b.ring), old(b.up), old(b.good), old(b.reqs))
  {
    WaitingOnce(b);
    hide DnsBase.Valid; hide PumpedSoFar; hide NoDup;
    GoodCount(b);
    PumpStart(b, net);
    n := 0;
    while b.inflight < b.maxInflight && b.waitingCount > 0
      invariant b.Valid() && b.load.Keys == old(b.load).Keys
      invariant PumpedSoFar(b, n, net, old(b.waiting), old(b.ring), old(b.up), old(b.good), old(b.reqs))
      decreases |b.waiting|
    {
      var s := PumpOne(b, n, net, old(b.waiting), old(b.ring), old(b.up), old(b.good), old(b.reqs));
      if s.None? {
        return;
      }
      n := n + 1;
    }
    Limits(b);
  }

  lemma PumpStart(b: DnsBase, net: Net)
    ensures PumpedSoFar(b, 0, net, b.waiting, b.ring, b.up, b.good, b.reqs)
  {
    hide Promoted; hide Rest; hide InPickOrder; hide WellPlaced;
    PromotedStill(b.reqs);
    NonePlaced(b.reqs, b.up);
    NoneInOrder(b.waiting, b.ring, b.up, b.good, b.reqs);
    RestStill(b.waiting);
  }

  lemma PumpedMeans(
    b: DnsBase, n: nat, net: Net, q0: seq<nat>, ring0: seq<nat>, up0: set<nat>, good0: int, reqs0: Requests)
    requires PumpedSoFar(b, n, net, q0, ring0, up0, good0, reqs0)
    ensures b.up <= up0 && Promoted(reqs0, b.reqs) && Rest(q0, b.waiting) && n == |q0| - |b.waiting|
    ensures WellPlaced(reqs0, b.reqs, up0, b.up) && AllSent(b.reqs, q0, n, net)
    ensures b.up == up0 ==>
              InPickOrder(q0, n, ring0, up0, good0, reqs0, b.reqs) && b.ring == After(ring0, up0, good0, n)
  {
  }

  /** The first n of q0 have been sent, unless they were blocked. */
  ghost predicate AllSent(reqs: Requests, q0: seq<nat>, n: nat, net: Net) {
    n <= |q0| && forall j | 0 <= j < n ::
        q0[j] in reqs && reqs[q0[j]].ns.Some? && (!net.first(q0[j]).Blocked? ==> reqs[q0[j]].sent)
  }

  lemma OneMoreSent(reqs1: Requests, reqs: Requests, q0: seq<nat>, n: nat, net: Net)
    requires AllSent(reqs1, q0, n, net) && Promoted(reqs1, reqs) && n < |q0|
    requires q0[n] in reqs && reqs[q0[n]].ns.Some? && (!net.first(q0[n]).Blocked? ==> reqs[q0[n]].sent)
    ensures AllSent(reqs, q0, n + 1, net)
  {
  }

  // After n requests of the waiting list q0 have been launched.
  ghost predicate PumpedSoFar(
    b: DnsBase, n: nat, net: Net, q0: seq<nat>, ring0: seq<nat>, up0: set<nat>, good0: int, reqs0: Requests)
    reads b
  {
    && b.up <= up0 && Promoted(reqs0, b.reqs) && Rest(q0, b.waiting) && n == |q0| - |b.waiting|
    && WellPlaced(reqs0, b.reqs, up0, b.up) && AllSent(b.reqs, q0, n, net)
    && (b.up == up0 ==>
        && InPickOrder(q0, n, ring0, up0, good0, reqs0, b.reqs)
        && b.ring == After(ring0, up0, good0, n))
  }

  // One turn of the loop.
  method PumpOne(
    b: DnsBase, n: nat, net: Net, ghost q0: seq<nat>, ghost ring0: seq<nat>, ghost up0: set<nat>, ghost good0: int,
    ghost reqs0: Requests)
    returns (s: Option<nat>)
    requires b.Valid() && b.waitingCount > 0 && b.inflight < b.maxInflight && NoDup(q0) && good0 == |up0|
    requires PumpedSoFar(b, n, net, q0, ring0, up0, good0, reqs0)
    modifies b`reqs, b`heads, b`waiting, b`inflight, b`waitingCount, b`load, b`ring, b`up, b`good
    ensures b.Valid() && b.load.Keys == old(b.load).Keys
    ensures s.None? ==>
              b.ring == [] && b.waiting == old(b.waiting) && PumpedSoFar(b, n, net, q0, ring0, up0, good0, reqs0)
    ensures s.Some? ==> |b.waiting| < |old(b.waiting)| && PumpedSoFar(b, n + 1, net, q0, ring0, up0, good0, reqs0)
  {
    hide DnsBase.Valid; hide Promoted; hide Picked; hide Rest; hide InPickOrder; hide WellPlaced; hide Launched;
    hide Landed; hide Picks; hide After; hide AllSent;
    GoodCount(b);
    ghost var reqs1, up1, ring1 := b.reqs, b.up, b.ring;
    s := b.Pick();
    if s.None? {
      NothingPicked(ring1, b.up, b.good);
      return;
    }
    WaitingHead(b);
    RestNext(q0, b.waiting);
    RestShort(q0, b.waiting);
    var r := b.waiting[0];
    Launch(b, s.value, net.first(r), (x: nat) => net.again(n, x));
    PromotedKeys(reqs0, reqs1);
    PromotedKeys(reqs1, b.reqs);
    OneMorePlaced(reqs0, reqs1, b.reqs, r, s.value, up0, up1, b.up);
    LaunchedFlies(reqs1, b.reqs, r, s.value, up1);
    OneMoreSent(reqs1, b.reqs, q0, n, net);
    PromotedTwice(reqs0, reqs1, b.reqs);
    if b.up == up0 {
      assert up1 == up0;
      PicksMore(ring0, up0, good0, n);
      OneMoreInOrder(q0, n, ring0, up0, good0, reqs0, reqs1, b.reqs);
    }
  }

  lemma RestShort(q0: seq<nat>, q: seq<nat>)
    requires Rest(q0, q)
    ensures |q| <= |q0|
  {
  }

  lemma WaitingOnce(b: DnsBase)
    requires b.Valid()
    ensures NoDup(b.waiting)
  {
  }

  lemma PromotedKeys(a: Requests, b: Requests)
    requires Promoted(a, b)
    ensures a.Keys == b.Keys
  {
  }

  lemma NothingPicked(ring: seq<nat>, up: set<nat>, good: int)
    requires Picked(ring, up, good).0.None?
    ensures Picked(ring, up, good).1 == ring
  {
  }

  lemma RestStill(q: seq<nat>)
    ensures Rest(q, q)
  {
  }

  lemma PromotedTwice(a: Requests, b: Requests, c: Requests)
    requires Promoted(a, b) && Promoted(b, c)
    ensures Promoted(a, c)
  {
  }

  // request_submit of a request with a server
  method SubmitFlying(b: DnsBase, r: nat, id: nat, s: nat, how: Sending)
    requires b.Valid() && r !in b.reqs && s in b.load && id < NO_ID && Unused(b.reqs, id)
    modifies b`reqs, b`heads, b`inflight, b`load, b`ring, b`up, b`good
    ensures b.Valid() && b.load.Keys == old(b.load).Keys && b.inflight == old(b.inflight) + 1
    ensures b.reqs.Keys == old(b.reqs).Keys + {r} && b.reqs[r].ns.Some? && Same(old(b.reqs), b.reqs - {r})
    ensures b.up <= old(b.up) && Launched(old(b.reqs), b.reqs, r, s, old(b.up))
    ensures b.up == old(b.up) ==> b.ring == old(b.ring) && Landed(old(b.reqs), b.reqs, r, s)
    ensures b.up == (if how.Failed? then old(b.up) - {s} else old(b.up)) && b.reqs[r].sent == !how.Blocked?
  {
    hide DnsBase.Valid; hide Unused; hide Same; hide Stay; hide MovedTo; hide Launched; hide Landed;
    ghost var reqs0 := b.reqs;
    b.AttachFlying(r, Request(id, Some(s), false));
    ghost var reqs1 := b.reqs;
    Transmit(b, r, how);
    SameBeside(reqs0, r, reqs1, b.reqs);
    SameKeys(reqs1, b.reqs);
    LaunchedIs(reqs0, reqs1, b.reqs, r, s, old(b.up));
    if b.up == old(b.up) {
      LandedIs(reqs0, reqs1, b.reqs, r, s);
    }
  }

  // request_submit of a request without one
  method SubmitWaiting(b: DnsBase, r: nat, id: nat)
    requires b.Valid() && r !in b.reqs
    modifies b`reqs, b`waiting, b`waitingCount
    ensures b.Valid() && b.waiting == old(b.waiting) + [r]
    ensures b.reqs.Keys == old(b.reqs).Keys + {r} && b.reqs[r].ns.None? && Same(old(b.reqs), b.reqs - {r})
  {
    hide DnsBase.Valid; hide Same;
    ghost var reqs0 := b.reqs;
    b.AttachWaiting(r, id);
    SameStill(reqs0);
    assert b.reqs - {r} == reqs0;
  }

  /** request_new and request_submit: a new request goes to the server picked for it, or waits */
  method Submit(b: DnsBase, r: nat, net: Net)
    requires b.Valid() && r !in b.reqs
    modifies b`reqs, b`heads, b`waiting, b`inflight, b`waitingCount, b`load, b`ring, b`up, b`good
    ensures b.Valid() && b.load.Keys == old(b.load).Keys && b.reqs.Keys == old(b.reqs).Keys + {r}
    ensures b.reqs[r].ns.Some? <==> old(b.inflight) < old(b.maxInflight) && old(b.ring) != []
    ensures b.waiting == if b.reqs[r].ns.Some? then old(b.waiting) else old(b.waiting) + [r]
    ensures Same(old(b.reqs), b.reqs - {r}) && b.up <= old(b.up) && b.maxInflight == old(b.maxInflight)
    ensures b.inflight == old(b.inflight) + if b.reqs[r].ns.Some? then 1 else 0
    ensures b.reqs[r].ns.Some? && old(b.up) != {} ==> b.reqs[r].ns.value in old(b.up)
    ensures b.reqs[r].ns.Some? ==> b.reqs[r].sent == !net.first(r).Blocked?
    ensures b.reqs[r].ns.None? || !net.first(r).Failed? ==> b.up == old(b.up)
    ensures b.reqs[r].ns.Some? ==> SentWhere(b, r, old(b.ring), old(b.up), old(b.good), old(b.reqs))
  {
    Limits(b);
    hide DnsBase.Valid; hide Picked; hide Unused; hide Same; hide SentWhere;
    if b.inflight < b.maxInflight && b.ring != [] {
      SubmitNow(b, r, net);
    } else {
      SubmitLater(b, r);
    }
  }

  // There is no server, or no more requests may be in flight.
  method SubmitLater(b: DnsBase, r: nat)
    requires b.Valid() && r !in b.reqs && (b.inflight < b.maxInflight ==> b.ring == [])
    modifies b`reqs, b`waiting, b`waitingCount, b`ring
    ensures b.Valid() && b.waiting == old(b.waiting) + [r] && b.ring == old(b.ring)
    ensures b.reqs.Keys == old(b.reqs).Keys + {r} && b.reqs[r].ns.None? && Same(old(b.reqs), b.reqs - {r})
  {
    Limits(b);
    hide DnsBase.Valid; hide Unused; hide Same;
    if b.inflight < b.maxInflight {
      var id := b.SomeId();
      var s := b.Pick();
      SubmitWaiting(b, r, id);
    } else {
      SubmitWaiting(b, r, NO_ID);
    }
  }

  /** As long as no server fails, the request is with the one picked, and nobody else has moved; else among the good. */
  ghost predicate SentWhere(b: DnsBase, r: nat, ring0: seq<nat>, up0: set<nat>, good0: int, reqs0: Requests)
    reads b
  {
    var p := Picked(ring0, up0, good0);
    && p.0.Some? && Launched(reqs0, b.reqs, r, p.0.value, up0)
    && (b.up == up0 ==> Landed(reqs0, b.reqs, r, p.0.value) && b.ring == p.1)
  }

  method SubmitNow(b: DnsBase, r: nat, net: Net)
    requires b.Valid() && r !in b.reqs && b.inflight < b.maxInflight && b.ring != []
    modifies b`reqs, b`heads, b`waiting, b`inflight, b`waitingCount, b`load, b`ring, b`up, b`good
    ensures b.Valid() && b.load.Keys == old(b.load).Keys && b.reqs.Keys == old(b.reqs).Keys + {r}
    ensures b.reqs[r].ns.Some? && b.waiting == old(b.waiting) && b.inflight == old(b.inflight) + 1
    ensures Same(old(b.reqs), b.reqs - {r}) && b.up <= old(b.up) && b.maxInflight == old(b.maxInflight)
    ensures old(b.up) != {} ==> b.reqs[r].ns.value in old(b.up)
    ensures b.reqs[r].sent == !net.first(r).Blocked? && (!net.first(r).Failed? ==> b.up == old(b.up))
    ensures SentWhere(b, r, old(b.ring), old(b.up), old(b.good), old(b.reqs))
  {
    Limits(b);
    GoodCount(b);
    hide DnsBase.Valid; hide Picked; hide Unused; hide Same; hide Landed;
    var id := b.SomeId();
    var s := b.Pick();
    Limits(b);
    SubmitFlying(b, r, id, s.value, net.first(r));
  }

  // The servers of some requests.
  ghost function ServersOf(reqs: Requests, rs: seq<nat>): (q: seq<Option<nat>>)
    requires forall i | 0 <= i < |rs| :: rs[i] in reqs
  {
    seq(|rs|, i requires 0 <= i < |rs| => reqs[rs[i]].ns)
  }

  /**
    As many submits in a row as there are good servers put one request on each of them, as
    long as none fails; in any case each goes to a server that was good.
  */
  method SubmitRound(b: DnsBase, rs: seq<nat>, net: Net)
    requires b.Valid() && b.up != {} && |rs| == b.good && b.inflight + |rs| <= b.maxInflight
    requires NoDup(rs) && forall i | 0 <= i < |rs| :: rs[i] !in b.reqs
    modifies b`reqs, b`heads, b`waiting, b`inflight, b`waitingCount, b`load, b`ring, b`up, b`good
    ensures b.Valid() && b.up <= old(b.up) && forall i | 0 <= i < |rs| :: rs[i] in b.reqs
    ensures b.up == old(b.up) ==> forall s :: multiset(ServersOf(b.reqs, rs))[Some(s)] == if s in b.up then 1 else 0
  {
    GoodServersTakeTurns(b);
    SomeServer(b);
    GoodCount(b);
    hide DnsBase.Valid; hide InPickOrder; hide Picks; hide After; hide RoundSoFar; hide ServersOf;
    ghost var ring0, up0, good0, reqs0 := b.ring, b.up, b.good, b.reqs;
    RoundStart(b, rs);
    for n := 0 to |rs|
      invariant b.Valid() && b.maxInflight == old(b.maxInflight) && b.inflight == old(b.inflight) + n
      invariant b.load.Keys == old(b.load).Keys && RoundSoFar(b, rs, n, ring0, up0, good0, reqs0)
    {
      SubmitNth(b, rs, n, net, ring0, up0, good0, reqs0);
    }
    RoundMeans(b, rs, ring0, up0, good0, reqs0);
  }

  lemma RoundStart(b: DnsBase, rs: seq<nat>)
    requires forall i | 0 <= i < |rs| :: rs[i] !in b.reqs
    ensures RoundSoFar(b, rs, 0, b.ring, b.up, b.good, b.reqs)
  {
    NoneInOrder(rs, b.ring, b.up, b.good, b.reqs);
  }

  lemma RoundMeans(b: DnsBase, rs: seq<nat>, ring0: seq<nat>, up0: set<nat>, good0: int, reqs0: Requests)
    requires RoundSoFar(b, rs, |rs|, ring0, up0, good0, reqs0)
    ensures b.up <= up0 && forall i | 0 <= i < |rs| :: rs[i] in b.reqs
    ensures b.up == up0 ==> ServersOf(b.reqs, rs) == Picks(ring0, up0, good0, |rs|)
  {
    if b.up == up0 {
      ServersInOrder(rs, ring0, up0, good0, reqs0, b.reqs);
    }
  }

  // After n submits.
  ghost predicate RoundSoFar(
    b: DnsBase, rs: seq<nat>, n: nat, ring0: seq<nat>, up0: set<nat>, good0: int, reqs0: Requests)
    reads b
  {
    && b.up <= up0 && (forall i | 0 <= i < |rs| :: rs[i] in b.reqs <==> i < n)
    && (b.up == up0 ==>
        && InPickOrder(rs, n, ring0, up0, good0, reqs0, b.reqs)
        && b.ring == After(ring0, up0, good0, n))
  }

  method SubmitNth(
    b: DnsBase, rs: seq<nat>, n: nat, net: Net, ghost ring0: seq<nat>, ghost up0: set<nat>, ghost good0: int,
    ghost reqs0: Requests)
    requires b.Valid() && NoDup(rs) && n < |rs| && RoundSoFar(b, rs, n, ring0, up0, good0, reqs0) && good0 == |up0|
    requires b.inflight < b.maxInflight && b.load.Keys != {}
    modifies b`reqs, b`heads, b`waiting, b`inflight, b`waitingCount, b`load, b`ring, b`up, b`good
    ensures b.Valid() && b.maxInflight == old(b.maxInflight) && b.inflight == old(b.inflight) + 1
    ensures b.load.Keys == old(b.load).Keys && RoundSoFar(b, rs, n + 1, ring0, up0, good0, reqs0)
  {
    hide DnsBase.Valid; hide Same; hide InPickOrder; hide Launched; hide Landed; hide Picks; hide After; hide Picked;
    GoodCount(b);
    Limits(b);
    ghost var reqs1, up1 := b.reqs, b.up;
    Submit(b, rs[n], net);
    if b.up == up0 {
      assert up1 == up0;
      PicksMore(ring0, up0, good0, n);
      OneMoreInOrder(rs, n, ring0, up0, good0, reqs0, reqs1, b.reqs);
    }
  }

  lemma SomeServer(b: DnsBase)
    requires b.Valid() && b.up != {}
    ensures b.load.Keys != {}
  {
    var s :| s in b.up;
    assert s in b.load;
  }

  lemma ServersInOrder(rs: seq<nat>, ring: seq<nat>, up: set<nat>, good: int, reqs0: Requests, reqs: Requests)
    requires InPickOrder(rs, |rs|, ring, up, good, reqs0, reqs) && forall i | 0 <= i < |rs| :: rs[i] in reqs
    ensures ServersOf(reqs, rs) == Picks(ring, up, good, |rs|)
  {
  }

  lemma SameBeside(reqs0: Requests, r: nat, reqs1: Requests, reqs: Requests)
    requires r !in reqs0 && r in reqs1 && reqs1 == reqs0[r := reqs1[r]] && Same(reqs1, reqs)
    ensures Same(reqs0, reqs - {r}) && reqs.Keys == reqs0.Keys + {r} && reqs[r].ns.Some? == reqs1[r].ns.Some?
  {
  }

  /** nameserver_send_probe: into flight at once, whatever the limit */
  method SendProbe(b: DnsBase, r: nat, s: nat, net: Net)
    requires b.Valid() && r !in b.reqs && s in b.load && b.inflight < NO_ID
    modifies b`reqs, b`heads, b`inflight, b`load, b`ring, b`up, b`good
    ensures b.Valid() && b.load.Keys == old(b.load).Keys && b.reqs.Keys == old(b.reqs).Keys + {r} && b.reqs[r].ns.Some?
    ensures b.inflight == old(b.inflight) + 1 && Same(old(b.reqs), b.reqs - {r})
    ensures Launched(old(b.reqs), b.reqs, r, s, old(b.up))
    ensures b.up == old(b.up) ==> Landed(old(b.reqs), b.reqs, r, s)
    ensures b.up == (if net.first(r).Failed? then old(b.up) - {s} else old(b.up))
    ensures b.reqs[r].sent == !net.first(r).Blocked?
    ensures b.up == old(b.up) ==>
              b.ring == if old(b.inflight) < b.maxInflight then Picked(old(b.ring), old(b.up), old(b.good)).1
                  else old(b.ring)
  {
    hide DnsBase.Valid; hide Picked; hide Unused; hide Same; hide Launched; hide Landed;
    if b.inflight < b.maxInflight {
      var ignored := b.Pick();
    }
    var id := b.SomeId();
    SubmitFlying(b, r, id, s, net.first(r));
  }

  /** request_finished: the list is found by whether the request has a server */
  method Finish(b: DnsBase, r: nat, net: Net)
    requires b.Valid() && r in b.reqs
    modifies b`reqs, b`heads, b`waiting, b`inflight, b`waitingCount, b`load, b`ring, b`up, b`good
    ensures b.Valid() && b.load.Keys == old(b.load).Keys && b.up <= old(b.up) && r !in b.reqs
    ensures b.waiting == [] || b.inflight >= b.maxInflight || b.ring == []
    ensures Promoted(old(b.reqs) - {r}, b.reqs) && WellPlaced(old(b.reqs) - {r}, b.reqs, old(b.up), b.up)
    ensures old(b.reqs)[r].ns.Some? ==> Rest(old(b.waiting), b.waiting)
    ensures old(b.reqs)[r].ns.None? ==> r in old(b.waiting) && Rest(Without(old(b.waiting), r), b.waiting)
  {
    hide DnsBase.Valid; hide Rest; hide Without; hide WellPlaced; hide InPickOrder; hide After;
    if b.reqs[r].ns.Some? {
      b.DetachFlying(r);
    } else {
      b.DetachWaiting(r);
    }
    Pump(b, net);
  }

  /** request_reissue: 1 if there is no other server */
  method Reissue(b: DnsBase, r: nat) returns (res: int)
    requires b.Valid() && r in b.reqs && b.reqs[r].ns.Some?
    modifies b`reqs, b`load, b`ring
    ensures b.Valid() && b.load.Keys == old(b.load).Keys && b.reqs.Keys == old(b.reqs).Keys
    ensures res == if b.reqs[r].ns == old(b.reqs)[r].ns then 1 else 0
    ensures (b.reqs[r].ns, b.ring) == Picked(old(b.ring), b.up, b.good)
    ensures old(b.good) > 0 && old(b.reqs)[r].ns.value !in b.up ==> res == 0 && b.reqs[r].ns.value in b.up
    ensures res == 0 ==> !b.reqs[r].sent && b.reqs[r].id == old(b.reqs)[r].id && b.reqs[r].ns.Some?
    ensures forall x | x in b.reqs && x != r :: b.reqs[x] == old(b.reqs)[x]
  {
    hide DnsBase.Valid; hide Picked;
    ServerKnown(b, r);
    Limits(b);
    var last := b.reqs[r].ns;
    var s := b.Pick();
    Limits(b);
    b.SwapServer(r, s);
    if b.reqs[r].ns == last {
      return 1;
    }
    b.MarkSent(r, false);
    return 0;
  }

  lemma ServerKnown(b: DnsBase, r: nat)
    requires b.Valid() && r in b.reqs && b.reqs[r].ns.Some?
    ensures b.reqs[r].ns.value in b.load
  {
  }

  // ------------------------------------------------------------------------
  // Servers come and come back

  // A server counts as good from now on.
  method MarkUp(b: DnsBase, s: nat)
    requires b.Valid() && s in b.load && s !in b.up
    modifies b`up, b`good
    ensures b.Valid() && b.up == old(b.up) + {s} && b.good == old(b.good) + 1
  {
    hide BucketsOk; hide WaitingOk; hide IdsOk; hide LoadsOk; hide Lengths; hide Flying;
    b.up := b.up + {s};
    b.good := b.good + 1;
  }

  /** nameserver_up: the probe, if one is out, is cancelled first */
  method ServerUp(b: DnsBase, s: nat, probe: Option<nat>, net: Net)
    requires b.Valid() && s in b.load && (probe.Some? ==> probe.value in b.reqs)
    modifies b`reqs, b`heads, b`waiting, b`inflight, b`waitingCount, b`load, b`ring, b`up, b`good
    ensures b.Valid() && b.load.Keys == old(b.load).Keys && s in b.up
    ensures s in old(b.up) || probe.None? ==> b.reqs == old(b.reqs) && b.waiting == old(b.waiting)
    ensures s in old(b.up) || probe.None? ==>
              b.up == old(b.up) + {s} && b.ring == old(b.ring) && b.inflight == old(b.inflight)
    ensures b.up <= old(b.up) + {s}
    ensures s !in old(b.up) && probe.Some? ==> Promoted(old(b.reqs) - {probe.value}, b.reqs)
  {
    hide DnsBase.Valid; hide Promoted;
    if s in b.up {
      return;
    }
    if probe.Some? {
      Finish(b, probe.value, net);
    }
    MarkUp(b, s);
  }

  lemma {:induction false} RingInsert(ring: seq<nat>, s: nat)
    requires NoDup(ring) && s !in ring && |ring| > 0
    ensures var ring' := [ring[0], s] + ring[1..]; NoDup(ring') && forall x :: x in ring' <==> x in ring || x == s
  {
    assert ring == [ring[0]] + ring[1..];
  }

  lemma {:induction false} NobodyOn(reqs: Requests, load: map<nat, int>, s: nat)
    requires LoadsOk(reqs, load) && s !in load
    ensures LoadsOk(reqs, load[s := 0])
  {
    assert On(reqs, s) == {};
    hide On;
  }

  /** evdns_nameserver_add_impl_: the new server comes right behind the head of the list */
  method AddServer(b: DnsBase, s: nat)
    requires b.Valid() && s !in b.load
    modifies b`ring, b`load, b`up, b`good
    ensures b.Valid() && b.load == old(b.load)[s := 0] && b.up == old(b.up) + {s}
    ensures b.ring == if old(b.ring) == [] then [s] else [old(b.ring)[0], s] + old(b.ring)[1..]
  {
    hide BucketsOk; hide WaitingOk; hide IdsOk; hide LoadsOk; hide ServersOk; hide Lengths; hide Flying;
    NobodyOn(b.reqs, b.load, s);
    ServersPut(b.ring, b.load, b.up, b.good, s);
    b.ring := WithServer(b.ring, s);
    b.load := b.load[s := 0];
    b.up := b.up + {s};
    b.good := b.good + 1;
  }

  function WithServer(ring: seq<nat>, s: nat): (r: seq<nat>) {
    if |ring| == 0 then [s] else [ring[0], s] + ring[1..]
  }

  lemma {:induction false} ServersPut(ring: seq<nat>, load: map<nat, int>, up: set<nat>, good: int, s: nat)
    requires ServersOk(ring, load, up, good) && s !in load
    ensures ServersOk(WithServer(ring, s), load[s := 0], up + {s}, good + 1)
  {
    if |ring| > 0 {
      RingInsert(ring, s);
    } else {
      assert forall x :: x in [s] <==> x == s;
    }
    hide WithServer;
    assert NoDup(WithServer(ring, s));
  }

  // ------------------------------------------------------------------------
  // A new number of buckets

  // Each request in flight is in `rest`, hashed the old way, or in `heads`, the new way.
  ghost predicate Halfway(reqs: Requests, rest: seq<seq<nat>>, heads: seq<seq<nat>>) {
    && |rest| > 0 && |heads| > 0
    && (forall i | 0 <= i < |rest| :: NoDup(rest[i]))
    && (forall i | 0 <= i < |heads| :: NoDup(heads[i]))
    && (forall i, r | 0 <= i < |rest| && r in rest[i] ::
        r in reqs && reqs[r].ns.Some? && BucketOf(reqs[r].id, |rest|) == i)
    && (forall i, r | 0 <= i < |heads| && r in heads[i] ::
        r in reqs && reqs[r].ns.Some? && BucketOf(reqs[r].id, |heads|) == i)
    && forall r | r in reqs && reqs[r].ns.Some? ::
        (r in rest[BucketOf(reqs[r].id, |rest|)]) != (r in heads[BucketOf(reqs[r].id, |heads|)])
  }

  lemma {:induction false} HalfwayStart(reqs: Requests, rest: seq<seq<nat>>, heads: seq<seq<nat>>)
    requires BucketsOk(reqs, rest) && |heads| > 0 && forall i | 0 <= i < |heads| :: heads[i] == []
    ensures Halfway(reqs, rest, heads)
  {
  }

  lemma {:induction false} HalfwayStep(reqs: Requests, rest: seq<seq<nat>>, heads: seq<seq<nat>>, i: nat)
    requires Halfway(reqs, rest, heads) && i < |rest| && |rest[i]| > 0
    ensures rest[i][0] in reqs
    ensures var r := rest[i][0]; var j := BucketOf(reqs[r].id, |heads|);
            Halfway(reqs, rest[i := rest[i][1..]], heads[j := heads[j] + [r]])
  {
    hide BucketOf;
    var r := rest[i][0];
    assert r in rest[i];
    var j := BucketOf(reqs[r].id, |heads|);
    var q, d := rest[i], heads[j];
    assert r !in d;
    HeadOut(q);
    TailIn(d, r);
    var rest', heads' := rest[i := q[1..]], heads[j := d + [r]];
    forall x | x in reqs && reqs[x].ns.Some?
      ensures (x in rest'[BucketOf(reqs[x].id, |rest|)]) != (x in heads'[BucketOf(reqs[x].id, |heads|)])
    {
      assert (x in rest[BucketOf(reqs[x].id, |rest|)]) != (x in heads[BucketOf(reqs[x].id, |heads|)]);
    }
  }

  lemma {:induction false} HeadOut(q: seq<nat>)
    requires NoDup(q) && |q| > 0
    ensures NoDup(q[1..]) && forall x :: x in q[1..] <==> x in q && x != q[0]
  {
    assert q == [q[0]] + q[1..];
  }

  lemma {:induction false} TailIn(q: seq<nat>, r: nat)
    requires NoDup(q) && r !in q
    ensures NoDup(q + [r]) && forall x :: x in q + [r] <==> x in q || x == r
  {
  }

  lemma {:induction false} HalfwayEnd(reqs: Requests, rest: seq<seq<nat>>, heads: seq<seq<nat>>)
    requires Halfway(reqs, rest, heads) && forall i | 0 <= i < |rest| :: rest[i] == []
    ensures BucketsOk(reqs, heads)
  {
  }

  // Every request moves from its old list to the tail of its new one.
  method Rehash(reqs: Requests, old_heads: seq<seq<nat>>, n: nat) returns (heads: seq<seq<nat>>)
    requires BucketsOk(reqs, old_heads) && n > 0
    ensures BucketsOk(reqs, heads) && |heads| == n && Lengths(heads) == Lengths(old_heads)
  {
    BucketsPositive(reqs, old_heads);
    var rest := old_heads;
    heads := seq(n, _ => []);
    EmptyLengths(heads);
    HalfwayStart(reqs, rest, heads);
    hide BucketsOk; hide Halfway; hide Lengths;
    for i := 0 to |rest|
      invariant |rest| == |old_heads| && |heads| == n && Halfway(reqs, rest, heads)
      invariant Lengths(rest) + Lengths(heads) == Lengths(old_heads)
      invariant forall l | 0 <= l < i :: rest[l] == []
    {
      while |rest[i]| > 0
        invariant |rest| == |old_heads| && |heads| == n && Halfway(reqs, rest, heads)
        invariant Lengths(rest) + Lengths(heads) == Lengths(old_heads)
        invariant forall l | 0 <= l < i :: rest[l] == []
        decreases |rest[i]|
      {
        HalfwayStep(reqs, rest, heads, i);
        var r := rest[i][0];
        var j := BucketOf(reqs[r].id, n);
        LengthsUpdate(rest, i, rest[i][1..]);
        LengthsUpdate(heads, j, heads[j] + [r]);
        rest := rest[i := rest[i][1..]];
        heads := heads[j := heads[j] + [r]];
      }
    }
    EmptyLengths(rest);
    HalfwayEnd(reqs, rest, heads);
  }

  /** evdns_base_set_max_requests_inflight; its caller clips the number at 65000 */
  method SetMaxInflight(b: DnsBase, maxInflight: int, memory: bool) returns (res: int)
    requires b.Valid() && maxInflight <= MAX_INFLIGHT
    modifies b`heads, b`maxInflight
    ensures b.Valid() && res == if memory then 0 else -1
    ensures memory ==>
              b.maxInflight == (if maxInflight < 1 then 1 else maxInflight) && |b.heads| == (b.maxInflight + 4) / 5
    ensures !memory ==> b.heads == old(b.heads) && b.maxInflight == old(b.maxInflight)
  {
    if !memory {
      return -1;
    }
    hide BucketsOk; hide WaitingOk; hide IdsOk; hide LoadsOk; hide ServersOk; hide Lengths; hide Flying;
    var limit := if maxInflight < 1 then 1 else maxInflight;
    b.heads := Rehash(b.reqs, b.heads, (limit + 4) / 5);
    b.maxInflight := limit;
    return 0;
  }

  // ------------------------------------------------------------------------
  // Runs

  datatype Call =
    | CallSubmit(r: nat, net: Net)
    | CallProbe(r: nat, s: nat, net: Net)
    | CallFinish(r: nat, net: Net)
    | CallReissue(r: nat)
    | CallSwap(r: nat, s: nat)
    | CallPump(net: Net)
    | CallTransmit(again: nat -> Option<Sending>)
    | CallSetMax(n: int, memory: bool)
    | CallFailed(s: nat)
    | CallUp(s: nat, probe: Option<nat>, net: Net)
    | CallAddServer(s: nat)

  /** What can be seen of a base. */
  datatype View = View(
    reqs: Requests, waiting: seq<nat>, inflight: int, maxInflight: int, ring: seq<nat>, up: set<nat>, servers: set<nat>)

  ghost function ViewOf(b: DnsBase): View
    reads b
  {
    View(b.reqs, b.waiting, b.inflight, b.maxInflight, b.ring, b.up, b.load.Keys)
  }

  // No request waits that could fly.
  ghost predicate Pumped(v: View) {
    v.waiting == [] || v.inflight >= v.maxInflight || v.ring == []
  }

  /** What each call does; one that its caller may not make does nothing. */
  ghost predicate Did(call: Call, v: View, w: View) {
    match call
    case CallSubmit(r, net) => DidSubmit(v, w, r, net)
    case CallProbe(r, s, net) => DidProbe(v, w, r, s, net)
    case CallFinish(r, net) => DidFinish(v, w, r, net)
    case CallReissue(r) => DidReissue(v, w, r)
    case CallSwap(r, s) => DidSwap(v, w, r, s)
    case CallPump(net) => DidPump(v, w, net)
    case CallTransmit(again) => DidTransmit(v, w, again)
    case CallSetMax(n, memory) => DidSetMax(v, w, n, memory)
    case CallFailed(s) => DidFailed(v, w, s)
    case CallUp(s, probe, net) => DidUp(v, w, s, probe, net)
    case CallAddServer(s) => DidAddServer(v, w, s)
  }

  ghost predicate DidSubmit(v: View, w: View, r: nat, net: Net) {
    && w.servers == v.servers && w.maxInflight == v.maxInflight
    && (if r in v.reqs then w == v
        else
          && w.reqs.Keys == v.reqs.Keys + {r} && Same(v.reqs, w.reqs - {r})
          && (w.reqs[r].ns.Some? <==> v.inflight < v.maxInflight && v.ring != [])
          && (w.reqs[r].ns.Some? ==> w.reqs[r].sent == !net.first(r).Blocked?)
          && w.waiting == if w.reqs[r].ns.Some? then v.waiting else v.waiting + [r])
  }

  ghost predicate DidProbe(v: View, w: View, r: nat, s: nat, net: Net) {
    && w.servers == v.servers && w.maxInflight == v.maxInflight
    && (if r in v.reqs || s !in v.servers || v.inflight >= NO_ID then w == v
            else w.reqs.Keys == v.reqs.Keys + {r} && Same(v.reqs, w.reqs - {r}) && Launched(v.reqs, w.reqs, r, s, v.up))
  }

  ghost predicate DidFinish(v: View, w: View, r: nat, net: Net) {
    && w.servers == v.servers && w.maxInflight == v.maxInflight
    && (if r !in v.reqs then w == v else Promoted(v.reqs - {r}, w.reqs) && Pumped(w))
  }

  ghost predicate DidReissue(v: View, w: View, r: nat) {
    && w.servers == v.servers && w.maxInflight == v.maxInflight
    && (if r !in v.reqs || v.reqs[r].ns.None? then w == v
        else
          && w.reqs.Keys == v.reqs.Keys && (w.reqs[r].ns, w.ring) == Picked(v.ring, v.up, |v.up|)
              && forall x | x in v.reqs && x != r :: w.reqs[x] == v.reqs[x])
  }

  ghost predicate DidSwap(v: View, w: View, r: nat, s: nat) {
    if r !in v.reqs || v.reqs[r].ns.None? || s !in v.servers then w == v
    else w == v.(reqs := v.reqs[r := v.reqs[r].(ns := Some(s))])
  }

  ghost predicate DidPump(v: View, w: View, net: Net) {
    && w.servers == v.servers && w.maxInflight == v.maxInflight
    && Promoted(v.reqs, w.reqs) && Rest(v.waiting, w.waiting) && Pumped(w)
  }

  ghost predicate DidTransmit(v: View, w: View, again: nat -> Option<Sending>) {
    && w.servers == v.servers && w.maxInflight == v.maxInflight
    && Same(v.reqs, w.reqs) && w.waiting == v.waiting
    && forall r | r in w.reqs && w.reqs[r].ns.Some? ::
      again(r) == Some(Taken) || again(r) == Some(Failed) ==> w.reqs[r].sent
  }

  ghost predicate DidSetMax(v: View, w: View, n: int, memory: bool) {
    w == if n > MAX_INFLIGHT || !memory then v else v.(maxInflight := if n < 1 then 1 else n)
  }

  ghost predicate DidFailed(v: View, w: View, s: nat) {
    && w.servers == v.servers && w.maxInflight == v.maxInflight
    && w.up == v.up - {s} && Same(v.reqs, w.reqs) && MovedTo(v.reqs, w.reqs, w.up)
  }

  ghost predicate DidUp(v: View, w: View, s: nat, probe: Option<nat>, net: Net) {
    && w.servers == v.servers && w.maxInflight == v.maxInflight
    && (if s !in v.servers || (probe.Some? && probe.value !in v.reqs) then w == v
        else
          && s in w.up && w.up <= v.up + {s}
          && (s in v.up || probe.None? ==> w == v.(up := v.up + {s}))
          && (s !in v.up && probe.Some? ==> Promoted(v.reqs - {probe.value}, w.reqs)))
  }

  ghost predicate DidAddServer(v: View, w: View, s: nat) {
    if s in v.servers then w == v
    else
      w == v.(servers := v.servers + {s}, up := v.up + {s},
              ring := if v.ring == [] then [s] else [v.ring[0], s] + v.ring[1..])
  }

  /** One call; what its caller may not do is skipped. */
  method Perform(b: DnsBase, call: Call)
    requires b.Valid()
    modifies b
    ensures b.Valid() && Did(call, old(ViewOf(b)), ViewOf(b))
  {
    hide DnsBase.Valid; hide ViewOf; hide DidSubmit; hide DidProbe; hide DidFinish; hide DidReissue; hide DidSwap;
    hide DidPump; hide DidTransmit; hide DidSetMax; hide DidFailed; hide DidUp; hide DidAddServer;
    match call
    case CallSubmit(r, net) => DoSubmit(b, r, net);
    case CallProbe(r, s, net) => DoProbe(b, r, s, net);
    case CallFinish(r, net) => DoFinish(b, r, net);
    case CallReissue(r) => DoReissue(b, r);
    case CallSwap(r, s) => DoSwap(b, r, s);
    case CallPump(net) => DoPump(b, net);
    case CallTransmit(again) => DoTransmit(b, again);
    case CallSetMax(n, memory) => DoSetMax(b, n, memory);
    case CallFailed(s) => DoFailed(b, s);
    case CallUp(s, probe, net) => DoUp(b, s, probe, net);
    case CallAddServer(s) => DoAddServer(b, s);
  }

  method DoSubmit(b: DnsBase, r: nat, net: Net)
    requires b.Valid()
    modifies b
    ensures b.Valid() && DidSubmit(old(ViewOf(b)), ViewOf(b), r, net)
  {
    hide DnsBase.Valid; hide Same; hide Promoted; hide Rest; hide Without; hide Picked; hide Launched; hide Landed;
    hide MovedTo; hide WellPlaced; hide InPickOrder; hide After; hide AllSent; hide SentWhere; hide Settled;
    if r !in b.reqs {
      Submit(b, r, net);
    }
  }

  method DoProbe(b: DnsBase, r: nat, s: nat, net: Net)
    requires b.Valid()
    modifies b
    ensures b.Valid() && DidProbe(old(ViewOf(b)), ViewOf(b), r, s, net)
  {
    hide DnsBase.Valid; hide Same; hide Promoted; hide Rest; hide Without; hide Picked; hide Launched; hide Landed;
    hide MovedTo; hide WellPlaced; hide InPickOrder; hide After; hide AllSent; hide SentWhere; hide Settled;
    if r !in b.reqs && s in b.load && b.inflight < NO_ID {
      SendProbe(b, r, s, net);
    }
  }

  method DoFinish(b: DnsBase, r: nat, net: Net)
    requires b.Valid()
    modifies b
    ensures b.Valid() && DidFinish(old(ViewOf(b)), ViewOf(b), r, net)
  {
    hide DnsBase.Valid; hide Same; hide Promoted; hide Rest; hide Without; hide Picked; hide Launched; hide Landed;
    hide MovedTo; hide WellPlaced; hide InPickOrder; hide After; hide AllSent; hide SentWhere; hide Settled;
    if r in b.reqs {
      Finish(b, r, net);
    }
  }

  method DoReissue(b: DnsBase, r: nat)
    requires b.Valid()
    modifies b
    ensures b.Valid() && DidReissue(old(ViewOf(b)), ViewOf(b), r)
  {
    hide DnsBase.Valid; hide Same; hide Promoted; hide Rest; hide Without; hide Picked; hide Launched; hide Landed;
    hide MovedTo; hide WellPlaced; hide InPickOrder; hide After; hide AllSent; hide SentWhere; hide Settled;
    GoodCount(b);
    if r in b.reqs && b.reqs[r].ns.Some? {
      var res := Reissue(b, r);
    }
  }

  method DoSwap(b: DnsBase, r: nat, s: nat)
    requires b.Valid()
    modifies b
    ensures b.Valid() && DidSwap(old(ViewOf(b)), ViewOf(b), r, s)
  {
    hide DnsBase.Valid; hide Same; hide Promoted; hide Rest; hide Without; hide Picked; hide Launched; hide Landed;
    hide MovedTo; hide WellPlaced; hide InPickOrder; hide After; hide AllSent; hide SentWhere; hide Settled;
    if r in b.reqs && b.reqs[r].ns.Some? && s in b.load {
      b.SwapServer(r, Some(s));
    }
  }

  method DoPump(b: DnsBase, net: Net)
    requires b.Valid()
    modifies b
    ensures b.Valid() && DidPump(old(ViewOf(b)), ViewOf(b), net)
  {
    hide DnsBase.Valid; hide Same; hide Promoted; hide Rest; hide Without; hide Picked; hide Launched; hide Landed;
    hide MovedTo; hide WellPlaced; hide InPickOrder; hide After; hide AllSent; hide SentWhere; hide Settled;
    Pump(b, net);
  }

  method DoTransmit(b: DnsBase, again: nat -> Option<Sending>)
    requires b.Valid()
    modifies b
    ensures b.Valid() && DidTransmit(old(ViewOf(b)), ViewOf(b), again)
  {
    hide DnsBase.Valid; hide Same; hide Promoted; hide Rest; hide Without; hide Picked; hide Launched; hide Landed;
    hide MovedTo; hide WellPlaced; hide InPickOrder; hide After; hide AllSent; hide SentWhere; hide Settled;
    TransmitAll(b, again);
  }

  method DoSetMax(b: DnsBase, n: int, memory: bool)
    requires b.Valid()
    modifies b
    ensures b.Valid() && DidSetMax(old(ViewOf(b)), ViewOf(b), n, memory)
  {
    hide DnsBase.Valid; hide Same; hide Promoted; hide Rest; hide Without; hide Picked; hide Launched; hide Landed;
    hide MovedTo; hide WellPlaced; hide InPickOrder; hide After; hide AllSent; hide SentWhere; hide Settled;
    if n <= MAX_INFLIGHT {
      var res := SetMaxInflight(b, n, memory);
    }
  }

  method DoFailed(b: DnsBase, s: nat)
    requires b.Valid()
    modifies b
    ensures b.Valid() && DidFailed(old(ViewOf(b)), ViewOf(b), s)
  {
    hide DnsBase.Valid; hide Same; hide Promoted; hide Rest; hide Without; hide Picked; hide Launched; hide Landed;
    hide MovedTo; hide WellPlaced; hide InPickOrder; hide After; hide AllSent; hide SentWhere; hide Settled;
    ServerFailed(b, s);
  }

  method DoUp(b: DnsBase, s: nat, probe: Option<nat>, net: Net)
    requires b.Valid()
    modifies b
    ensures b.Valid() && DidUp(old(ViewOf(b)), ViewOf(b), s, probe, net)
  {
    hide DnsBase.Valid; hide Same; hide Promoted; hide Rest; hide Without; hide Picked; hide Launched; hide Landed;
    hide MovedTo; hide WellPlaced; hide InPickOrder; hide After; hide AllSent; hide SentWhere; hide Settled;
    if s in b.load && (probe.Some? ==> probe.value in b.reqs) {
      ServerUp(b, s, probe, net);
    }
  }

  method DoAddServer(b: DnsBase, s: nat)
    requires b.Valid()
    modifies b
    ensures b.Valid() && DidAddServer(old(ViewOf(b)), ViewOf(b), s)
  {
    hide DnsBase.Valid; hide Same; hide Promoted; hide Rest; hide Without; hide Picked; hide Launched; hide Landed;
    hide MovedTo; hide WellPlaced; hide InPickOrder; hide After; hide AllSent; hide SentWhere; hide Settled;
    if s !in b.load {
      AddServer(b, s);
    }
  }

  /** Every run of calls keeps the tables and the counters in step, and each call does what it is for. */
  method Execute(b: DnsBase, calls: seq<Call>) returns (ghost views: seq<View>)
    requires b.Valid()
    modifies b
    ensures b.Valid() && |views| == |calls| + 1 && views[0] == old(ViewOf(b)) && views[|calls|] == ViewOf(b)
    ensures forall i | 0 <= i < |calls| :: Did(calls[i], views[i], views[i + 1])
  {
    hide DnsBase.Valid; hide Did; hide ViewOf;
    views := [ViewOf(b)];
    for n := 0 to |calls|
      invariant b.Valid() && |views| == n + 1 && views[0] == old(ViewOf(b)) && views[n] == ViewOf(b)
      invariant forall i | 0 <= i < n :: Did(calls[i], views[i], views[i + 1])
    {
      Perform(b, calls[n]);
      views := views + [ViewOf(b)];
    }
  }

  /** What the invariant says in every reachable state. */
  lemma {:induction false} TablesTell(b: DnsBase, r: nat)
    requires b.Valid() && r in b.reqs
    ensures b.reqs[r].ns.None? <==> r in b.waiting
    ensures b.reqs[r].ns.Some? ==>
              b.reqs[r].id < NO_ID && |b.heads| > 0 && Holders(b.heads, r) == {b.reqs[r].id % |b.heads|}
    ensures b.reqs[r].ns.None? ==> Holders(b.heads, r) == {}
    ensures b.inflight == |b.reqs.Keys| - |b.waiting| && b.waitingCount == |b.waiting|
  {
    HoldersAre(b, r);
    CountAll(b);
  }

  lemma HoldersAre(b: DnsBase, r: nat)
    requires b.Valid() && r in b.reqs
    ensures Holders(b.heads, r) == if b.reqs[r].ns.Some? then {BucketOf(b.reqs[r].id, |b.heads|)} else {}
  {
    forall i: nat ensures i in Holders(b.heads, r) <==> b.reqs[r].ns.Some? && i == BucketOf(b.reqs[r].id, |b.heads|) {
      if i < |b.heads| {
        assert r in b.heads[i] <==> r in b.reqs && b.reqs[r].ns.Some? && BucketOf(b.reqs[r].id, |b.heads|) == i;
      }
    }
  }

  lemma CountAll(b: DnsBase)
    requires b.Valid()
    ensures b.inflight == |b.reqs.Keys| - |b.waiting|
  {
    DistinctSize(b.waiting);
    var w := Members(b.waiting);
    hide BucketsOk; hide IdsOk; hide LoadsOk; hide ServersOk; hide Lengths;
    assert b.reqs.Keys == Flying(b.reqs) + w && Flying(b.reqs) !! w;
  }

  ghost function Holders(heads: seq<seq<nat>>, r: nat): (s: set<nat>) {
    set i: nat | i < |heads| && r in heads[i]
  }

  lemma {:induction false} UpOfSize(ring: seq<nat>, up: set<nat>)
    requires NoDup(ring)
    ensures |UpOf(ring, up)| == |Members(ring) * up|
    decreases |ring|
  {
    hide *;
    if |ring| == 0 {
      UpOfNothing(ring, up);
    } else {
      var rest := Members(ring[1..]) * up;
      HeadOut(ring);
      MembersNext(ring);
      UpOfNext(ring, up);
      UpOfSize(ring[1..], up);
      if ring[0] in up {
        assert Members(ring) * up == rest + {ring[0]} && ring[0] !in rest;
      } else {
        assert Members(ring) * up == rest;
      }
    }
  }

  lemma UpOfNothing(ring: seq<nat>, up: set<nat>)
    requires |ring| == 0
    ensures UpOf(ring, up) == [] && Members(ring) * up == {}
  {
  }

  lemma UpOfNext(ring: seq<nat>, up: set<nat>)
    requires |ring| > 0
    ensures |UpOf(ring, up)| == |UpOf(ring[1..], up)| + if ring[0] in up then 1 else 0
  {
  }

  /** global_good_nameservers picks in a row choose each good server once, and no other. */
  lemma {:induction false} GoodServersTakeTurns(b: DnsBase)
    requires b.Valid() && b.good > 0
    ensures forall s :: multiset(Picks(b.ring, b.up, b.good, b.good))[Some(s)] == if s in b.up then 1 else 0
  {
    UpOfSize(b.ring, b.up);
    assert Members(b.ring) * b.up == b.up;
    RoundRobin(b.ring, b.up);
  }
}
