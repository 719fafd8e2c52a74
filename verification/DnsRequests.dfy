/**
  The request tables of evdns.c: requests in flight, hashed by transaction id, requests
  waiting for a server, and the counters kept beside them.

  Requests and servers are named by numbers. A circular list is a sequence that starts at
  its head. What the random generator and the network do is left open.
*/
module DnsRequests {
  import opened Basics
  import opened Lists
  import opened DnsServers

  /** struct request: its trans_id, its nameserver, and whether tx_count is positive. */
  datatype Request = Request(id: nat, ns: Option<nat>, sent: bool)

  type Requests = map<nat, Request>

  const NO_ID: nat := 0xffff
  const MAX_INFLIGHT: nat := 65000

  ghost function Flying(reqs: Requests): (s: set<nat>) {
    set r | r in reqs && reqs[r].ns.Some?
  }

  ghost function On(reqs: Requests, server: nat): (s: set<nat>) {
    set r | r in reqs && reqs[r].ns == Some(server)
  }

  // REQ_HEAD: which of the n lists an id belongs to.
  function BucketOf(id: nat, n: nat): (i: nat)
    requires n > 0
    ensures i < n
  {
    id % n
  }

  ghost predicate BucketsOk(reqs: Requests, heads: seq<seq<nat>>) {
    && |heads| > 0
    && forall i | 0 <= i < |heads| ::
      && NoDup(heads[i])
      && forall r :: r in heads[i] <==> r in reqs && reqs[r].ns.Some? && BucketOf(reqs[r].id, |heads|) == i
  }

  ghost predicate WaitingOk(reqs: Requests, waiting: seq<nat>) {
    NoDup(waiting) && forall r :: r in waiting <==> r in reqs && reqs[r].ns.None?
  }

  ghost predicate IdsOk(reqs: Requests) {
    && (forall r | r in reqs && reqs[r].ns.Some? :: reqs[r].id < NO_ID)
    && forall r, q | r in reqs && q in reqs && reqs[r].ns.Some? && reqs[q].ns.Some?
        && reqs[r].id == reqs[q].id :: r == q
  }

  ghost predicate LoadsOk(reqs: Requests, load: map<nat, int>) {
    && (forall r | r in reqs && reqs[r].ns.Some? :: reqs[r].ns.value in load)
    && forall s | s in load :: load[s] == |On(reqs, s)|
  }

  ghost predicate ServersOk(ring: seq<nat>, load: map<nat, int>, up: set<nat>, good: int) {
    NoDup(ring) && (forall s :: s in ring <==> s in load) && (forall s | s in up :: s in load) && good == |up|
  }

  // No request in flight has this id.
  predicate Unused(reqs: Requests, id: nat) {
    forall r | r in reqs && reqs[r].ns.Some? :: reqs[r].id != id
  }

  // ------------------------------------------------------------------------
  // Taking a request in and letting it go

  lemma {:induction false} BucketsPut(reqs: Requests, heads: seq<seq<nat>>, r: nat, req: Request)
    requires BucketsOk(reqs, heads) && r !in reqs && req.ns.Some?
    ensures var i := BucketOf(req.id, |heads|); BucketsOk(reqs[r := req], heads[i := heads[i] + [r]])
  {
    hide BucketOf;
    var i := BucketOf(req.id, |heads|);
    var heads', reqs' := heads[i := heads[i] + [r]], reqs[r := req];
    assert r !in heads[i];
    forall l, x | 0 <= l < |heads|
      ensures x in heads'[l] <==> x in reqs' && reqs'[x].ns.Some? && BucketOf(reqs'[x].id, |heads|) == l
    {
      assert x in heads'[l] <==> x in heads[l] || (l == i && x == r);
    }
  }

  lemma {:induction false} BucketsDrop(reqs: Requests, heads: seq<seq<nat>>, r: nat)
    requires BucketsOk(reqs, heads) && r in reqs && reqs[r].ns.Some?
    ensures var i := BucketOf(reqs[r].id, |heads|);
            r in heads[i] && BucketsOk(reqs - {r}, heads[i := Without(heads[i], r)])
  {
    var i := BucketOf(reqs[r].id, |heads|);
    assert r in heads[i];
    WithoutProps(heads[i], r);
    hide Without;
  }

  lemma {:induction false} BucketsKeep(reqs: Requests, reqs': Requests, heads: seq<seq<nat>>)
    requires BucketsOk(reqs, heads)
    requires forall r :: r in reqs && reqs[r].ns.Some? <==> r in reqs' && reqs'[r].ns.Some?
    requires forall r | r in reqs && reqs[r].ns.Some? :: reqs[r].id == reqs'[r].id
    ensures BucketsOk(reqs', heads)
  {
  }

  lemma {:induction false} WaitingPut(reqs: Requests, waiting: seq<nat>, r: nat, req: Request)
    requires WaitingOk(reqs, waiting) && r !in reqs && req.ns.None?
    ensures WaitingOk(reqs[r := req], waiting + [r])
  {
    forall x ensures x in waiting + [r] <==> x in reqs[r := req] && reqs[r := req][x].ns.None? {
      assert x in waiting + [r] <==> x in waiting || x == r;
    }
  }

  lemma {:induction false} WaitingDrop(reqs: Requests, waiting: seq<nat>, r: nat)
    requires WaitingOk(reqs, waiting) && r in reqs && reqs[r].ns.None?
    ensures r in waiting && WaitingOk(reqs - {r}, Without(waiting, r))
  {
    WithoutProps(waiting, r);
  }

  lemma {:induction false} WaitingKeep(reqs: Requests, reqs': Requests, waiting: seq<nat>)
    requires WaitingOk(reqs, waiting)
    requires forall r :: r in reqs && reqs[r].ns.None? <==> r in reqs' && reqs'[r].ns.None?
    ensures WaitingOk(reqs', waiting)
  {
  }

  lemma {:induction false} CountsPut(reqs: Requests, r: nat, req: Request)
    requires r !in reqs
    ensures |Flying(reqs[r := req])| == |Flying(reqs)| + if req.ns.Some? then 1 else 0
    ensures forall s: nat :: |On(reqs[r := req], s)| == |On(reqs, s)| + if req.ns == Some(s) then 1 else 0
  {
    FlyingPut(reqs, r, req);
    hide Flying; hide On;
    forall s: nat ensures |On(reqs[r := req], s)| == |On(reqs, s)| + if req.ns == Some(s) then 1 else 0 {
      OnPut(reqs, r, req, s);
    }
  }

  lemma {:induction false} FlyingPut(reqs: Requests, r: nat, req: Request)
    requires r !in reqs
    ensures |Flying(reqs[r := req])| == |Flying(reqs)| + if req.ns.Some? then 1 else 0
  {
    if req.ns.Some? {
      assert Flying(reqs[r := req]) == Flying(reqs) + {r} && r !in Flying(reqs);
    } else {
      assert Flying(reqs[r := req]) == Flying(reqs);
    }
  }

  lemma {:induction false} OnPut(reqs: Requests, r: nat, req: Request, s: nat)
    requires r !in reqs
    ensures |On(reqs[r := req], s)| == |On(reqs, s)| + if req.ns == Some(s) then 1 else 0
  {
    if req.ns == Some(s) {
      assert On(reqs[r := req], s) == On(reqs, s) + {r} && r !in On(reqs, s);
    } else {
      assert On(reqs[r := req], s) == On(reqs, s);
    }
  }

  lemma {:induction false} CountsDrop(reqs: Requests, r: nat)
    requires r in reqs
    ensures |Flying(reqs - {r})| == |Flying(reqs)| - if reqs[r].ns.Some? then 1 else 0
    ensures forall s: nat :: |On(reqs - {r}, s)| == |On(reqs, s)| - if reqs[r].ns == Some(s) then 1 else 0
  {
    assert reqs == (reqs - {r})[r := reqs[r]];
    CountsPut(reqs - {r}, r, reqs[r]);
  }

  lemma {:induction false} LoadsPut(reqs: Requests, load: map<nat, int>, r: nat, req: Request)
    requires LoadsOk(reqs, load) && r !in reqs && (req.ns.Some? ==> req.ns.value in load)
    ensures LoadsOk(reqs[r := req], if req.ns.Some? then load[req.ns.value := load[req.ns.value] + 1] else load)
  {
    CountsPut(reqs, r, req);
    hide On;
  }

  lemma {:induction false} LoadsDrop(reqs: Requests, load: map<nat, int>, r: nat)
    requires LoadsOk(reqs, load) && r in reqs
    ensures reqs[r].ns.Some? ==> reqs[r].ns.value in load
    ensures LoadsOk(reqs - {r}, if reqs[r].ns.Some? then load[reqs[r].ns.value := load[reqs[r].ns.value] - 1] else load)
  {
    CountsDrop(reqs, r);
    hide On;
  }

  lemma {:induction false} IdsPut(reqs: Requests, r: nat, req: Request)
    requires IdsOk(reqs) && r !in reqs && (req.ns.Some? ==> req.id < NO_ID && Unused(reqs, req.id))
    ensures IdsOk(reqs[r := req])
  {
  }

  lemma {:induction false} IdsDrop(reqs: Requests, r: nat)
    requires IdsOk(reqs)
    ensures IdsOk(reqs - {r})
  {
  }

  lemma {:induction false} ServersKeep(
    ring: seq<nat>, load: map<nat, int>, load': map<nat, int>, up: set<nat>, good: int)
    requires ServersOk(ring, load, up, good) && load'.Keys == load.Keys
    ensures ServersOk(ring, load', up, good)
  {
    assert forall s :: s in load <==> s in load.Keys;
    assert forall s :: s in load' <==> s in load'.Keys;
  }

  // ------------------------------------------------------------------------
  // There is always an id left

  ghost function Ids(reqs: Requests, rs: set<nat>): (s: set<nat>)
    requires forall r | r in rs :: r in reqs
  {
    set r | r in rs :: reqs[r].id
  }

  lemma {:induction false} FewIds(reqs: Requests, rs: set<nat>)
    requires forall r | r in rs :: r in reqs
    ensures |Ids(reqs, rs)| <= |rs|
    decreases |rs|
  {
    if rs == {} {
      assert Ids(reqs, rs) == {};
    } else {
      var r :| r in rs;
      FewIds(reqs, rs - {r});
      assert Ids(reqs, rs) == Ids(reqs, rs - {r}) + {reqs[r].id};
    }
  }

  lemma {:induction false} FreeBelow(ids: set<nat>, n: nat) returns (id: nat)
    requires |ids| < n
    ensures id < n && id !in ids
    decreases n
  {
    if n - 1 !in ids {
      id := n - 1;
    } else {
      id := FreeBelow(ids - {n - 1}, n - 1);
    }
  }

  /** transaction_id_pick can end: the ids do not run out. */
  lemma {:induction false} FreshId(reqs: Requests) returns (id: nat)
    requires |Flying(reqs)| < NO_ID
    ensures id < NO_ID && Unused(reqs, id)
  {
    var rs := Flying(reqs);
    FewIds(reqs, rs);
    id := FreeBelow(Ids(reqs, rs), NO_ID);
    assert forall r | r in reqs && reqs[r].ns.Some? :: r in rs && reqs[r].id in Ids(reqs, rs);
  }

  class DnsBase {
    var reqs: Requests
    var heads: seq<seq<nat>>
    var waiting: seq<nat>
    var inflight: int
    var waitingCount: int
    var maxInflight: int
    var ring: seq<nat>
    var load: map<nat, int>
    var up: set<nat>
    var good: int

    /** evdns_base_new: no servers, the default of 64 requests in flight */
    constructor ()
      ensures Valid() && reqs == map[] && ring == [] && maxInflight == 64
    {
      reqs, heads, waiting, inflight, waitingCount, maxInflight := map[], seq(13, _ => []), [], 0, 0, 64;
      ring, load, up, good := [], map[], {}, 0;
      new;
      EmptyLengths(heads);
      assert Flying(reqs) == {};
    }

    ghost predicate Valid()
      reads this
    {
      && BucketsOk(reqs, heads) && WaitingOk(reqs, waiting) && IdsOk(reqs)
      && LoadsOk(reqs, load) && ServersOk(ring, load, up, good)
      && inflight == |Flying(reqs)| && inflight == Lengths(heads) && waitingCount == |waiting|
      && 1 <= maxInflight <= MAX_INFLIGHT
    }

    /** request_find_from_trans_id: one bucket tells about all requests in flight */
    method Find(id: nat) returns (r: Option<nat>)
      requires Valid()
      ensures r.Some? ==> r.value in reqs && reqs[r.value].ns.Some? && reqs[r.value].id == id
      ensures r.Some? ==> forall q | q in reqs && reqs[q].ns.Some? && reqs[q].id == id :: q == r.value
      ensures r.None? <==> Unused(reqs, id)
    {
      var q := heads[BucketOf(id, |heads|)];
      var i := 0;
      while i < |q|
        invariant i <= |q|
        invariant forall j | 0 <= j < i :: q[j] in reqs && reqs[q[j]].id != id
      {
        assert q[i] in q;
        if reqs[q[i]].id == id {
          return Some(q[i]);
        }
        i := i + 1;
      }
      forall x | x in reqs && reqs[x].ns.Some? ensures reqs[x].id != id {
        assert reqs[x].id == id ==> x in q;
      }
      return None;
    }

    /** transaction_id_pick on what the generator yields: the first draw that will do */
    method TransactionIdPick(draws: seq<nat>) returns (id: Option<nat>)
      requires Valid()
      ensures id.Some? ==> id.value != NO_ID && Unused(reqs, id.value)
      ensures id.Some? ==> exists n ::
                0 <= n < |draws| && draws[n] == id.value
                    && (forall m | 0 <= m < n :: draws[m] == NO_ID || !Unused(reqs, draws[m]))
      ensures id.None? ==> forall m | 0 <= m < |draws| :: draws[m] == NO_ID || !Unused(reqs, draws[m])
    {
      hide DnsBase.Valid; hide Unused;
      for n := 0 to |draws|
        invariant forall m | 0 <= m < n :: draws[m] == NO_ID || !Unused(reqs, draws[m])
      {
        if draws[n] != NO_ID {
          var r := Find(draws[n]);
          if r.None? {
            return Some(draws[n]);
          }
        }
      }
      return None;
    }

    // Any id that transaction_id_pick may come up with.
    method SomeId() returns (id: nat)
      requires Valid() && inflight < NO_ID
      ensures id < NO_ID && Unused(reqs, id)
    {
      ghost var g := FreshId(reqs);
      id :| 0 <= id < NO_ID && Unused(reqs, id);
    }

    /** evdns_request_insert into a bucket, with the counters of request_submit */
    method AttachFlying(r: nat, req: Request)
      requires Valid() && r !in reqs && req.ns.Some? && req.ns.value in load && req.id < NO_ID && Unused(reqs, req.id)
      modifies this`reqs, this`heads, this`inflight, this`load
      ensures Valid() && reqs == old(reqs)[r := req] && |heads| == |old(heads)| && inflight == old(inflight) + 1
                && load.Keys == old(load).Keys
    {
      hide BucketsOk; hide WaitingOk; hide IdsOk; hide LoadsOk; hide ServersOk; hide Lengths; hide Flying;
      BucketsPositive(reqs, heads);
      var i := BucketOf(req.id, |heads|);
      BucketsPut(reqs, heads, r, req);
      WaitingKeep(reqs, reqs[r := req], waiting);
      CountsPut(reqs, r, req);
      IdsPut(reqs, r, req);
      LoadsPut(reqs, load, r, req);
      LengthsUpdate(heads, i, heads[i] + [r]);
      heads := heads[i := heads[i] + [r]];
      inflight := inflight + 1;
      ServersKeep(ring, load, load[req.ns.value := load[req.ns.value] + 1], up, good);
      load := load[req.ns.value := load[req.ns.value] + 1];
      reqs := reqs[r := req];
    }

    /** evdns_request_remove from its bucket, with the counters of request_finished */
    method DetachFlying(r: nat)
      requires Valid() && r in reqs && reqs[r].ns.Some?
      modifies this`reqs, this`heads, this`inflight, this`load
      ensures Valid() && reqs == old(reqs) - {r} && |heads| == |old(heads)| && inflight == old(inflight) - 1
                && load.Keys == old(load).Keys
    {
      hide BucketsOk; hide WaitingOk; hide IdsOk; hide LoadsOk; hide ServersOk; hide Lengths; hide Flying;
      BucketsPositive(reqs, heads);
      var req := reqs[r];
      var i := BucketOf(req.id, |heads|);
      BucketsDrop(reqs, heads, r);
      WaitingKeep(reqs, reqs - {r}, waiting);
      CountsDrop(reqs, r);
      IdsDrop(reqs, r);
      LoadsDrop(reqs, load, r);
      LengthsUpdate(heads, i, Without(heads[i], r));
      heads := heads[i := Without(heads[i], r)];
      inflight := inflight - 1;
      ServersKeep(ring, load, load[req.ns.value := load[req.ns.value] - 1], up, good);
      load := load[req.ns.value := load[req.ns.value] - 1];
      reqs := reqs - {r};
    }

    /** evdns_request_insert into the waiting list */
    method AttachWaiting(r: nat, id: nat)
      requires Valid() && r !in reqs
      modifies this`reqs, this`waiting, this`waitingCount
      ensures Valid() && reqs == old(reqs)[r := Request(id, None, false)] && waiting == old(waiting) + [r]
    {
      hide BucketsOk; hide WaitingOk; hide IdsOk; hide LoadsOk; hide ServersOk; hide Lengths; hide Flying;
      var req := Request(id, None, false);
      WaitingPut(reqs, waiting, r, req);
      BucketsKeep(reqs, reqs[r := req], heads);
      CountsPut(reqs, r, req);
      IdsPut(reqs, r, req);
      LoadsPut(reqs, load, r, req);
      waiting := waiting + [r];
      waitingCount := waitingCount + 1;
      reqs := reqs[r := req];
    }

    method DetachWaiting(r: nat)
      requires Valid() && r in reqs && reqs[r].ns.None?
      modifies this`reqs, this`waiting, this`waitingCount
      ensures Valid() && reqs == old(reqs) - {r} && r in old(waiting) && waiting == Without(old(waiting), r)
    {
      hide BucketsOk; hide WaitingOk; hide IdsOk; hide LoadsOk; hide ServersOk; hide Lengths; hide Flying; hide Without;
      WaitingDrop(reqs, waiting, r);
      BucketsKeep(reqs, reqs - {r}, heads);
      CountsDrop(reqs, r);
      IdsDrop(reqs, r);
      LoadsDrop(reqs, load, r);
      waiting := Without(waiting, r);
      waitingCount := waitingCount - 1;
      reqs := reqs - {r};
    }

    /** nameserver_pick */
    method Pick() returns (s: Option<nat>)
      requires Valid()
      modifies this`ring
      ensures Valid() && (s, ring) == Picked(old(ring), up, good)
      ensures s.None? <==> ring == []
      ensures good > 0 ==> s.Some?
      ensures s.Some? ==> s.value in load && (good > 0 ==> s.value in up)
    {
      hide BucketsOk; hide WaitingOk; hide IdsOk; hide LoadsOk; hide Lengths; hide Flying;
      if |ring| == 0 {
        assert up == {};
        return None;
      }
      ghost var ring0 := ring;
      if good == 0 {
        Turn(1);
        return Some(ring[0]);
      }
      ghost var n := UpSomewhere();
      ghost var i := 0;
      // server_head never comes back to where it started: the assertion there is not reached
      while ring[0] !in up
        invariant Valid() && i <= n < |ring0| && ring == Rotate(ring0, i) && ring0[n] in up
        invariant forall j | 0 <= j < i :: ring0[j] !in up
        decreases n - i
      {
        RotateMore(ring0, i);
        Turn(1);
        i := i + 1;
      }
      assert ring0[i] in up && FirstUp(ring0, up) == i;
      s := Some(ring[0]);
      RotateMore(ring0, i);
      Turn(1);
    }

    // The list may start anywhere.
    method Turn(n: nat)
      requires Valid() && n <= |ring|
      modifies this`ring
      ensures Valid() && ring == Rotate(old(ring), n)
      ensures forall s :: s in ring <==> s in load
    {
      hide BucketsOk; hide WaitingOk; hide IdsOk; hide LoadsOk; hide Lengths; hide Flying;
      RotateSame(ring, n);
      ring := Rotate(ring, n);
    }

    lemma UpSomewhere() returns (n: nat)
      requires Valid() && good != 0
      ensures n < |ring| && ring[n] in up
    {
      var s :| s in up;
      n :| n < |ring| && ring[n] == s;
    }

    /** request_swap_ns */
    method SwapServer(r: nat, s: Option<nat>)
      requires Valid() && r in reqs && reqs[r].ns.Some? && (s.Some? ==> s.value in load)
      modifies this`reqs, this`load
      ensures Valid() && load.Keys == old(load).Keys
      ensures reqs == old(reqs)[r := old(reqs)[r].(ns := if s.Some? then s else old(reqs)[r].ns)]
    {
      hide BucketsOk; hide WaitingOk; hide IdsOk; hide LoadsOk; hide ServersOk; hide Lengths; hide Flying;
      if s.None? || reqs[r].ns == s {
        assert reqs == reqs[r := reqs[r]];
        return;
      }
      var req := reqs[r].(ns := s);
      SwapKeeps(reqs, heads, waiting, r, req);
      LoadsSwap(reqs, load, r, req);
      var from := reqs[r].ns.value;
      var load1 := load[from := load[from] - 1];
      var load2 := load1[s.value := load1[s.value] + 1];
      ServersKeep(ring, load, load2, up, good);
      load := load2;
      reqs := reqs[r := req];
    }

    // tx_count goes up, or back to zero.
    method MarkSent(r: nat, sent: bool)
      requires Valid() && r in reqs && reqs[r].ns.Some?
      modifies this`reqs
      ensures Valid() && reqs == old(reqs)[r := old(reqs)[r].(sent := sent)]
    {
      hide BucketsOk; hide WaitingOk; hide IdsOk; hide ServersOk; hide Lengths; hide Flying; hide On;
      var req := reqs[r].(sent := sent);
      SwapKeeps(reqs, heads, waiting, r, req);
      OnSame(reqs, r, req);
      reqs := reqs[r := req];
    }
  }

  lemma {:induction false} RotateSame(ring: seq<nat>, n: nat)
    requires n <= |ring| && NoDup(ring)
    ensures NoDup(Rotate(ring, n)) && forall s :: s in Rotate(ring, n) <==> s in ring
  {
    assert ring == ring[..n] + ring[n..];
  }

  lemma {:induction false} RotateMore(ring: seq<nat>, i: nat)
    requires i < |ring|
    ensures |Rotate(ring, i)| == |ring| && Rotate(ring, i)[0] == ring[i]
              && Rotate(Rotate(ring, i), 1) == Rotate(ring, i + 1)
  {
    assert ring[i..] == [ring[i]] + ring[i + 1..];
    assert ring[..i + 1] == ring[..i] + [ring[i]];
  }

  // A request in flight gets another server, or is sent.
  lemma {:induction false} SwapKeeps(reqs: Requests, heads: seq<seq<nat>>, waiting: seq<nat>, r: nat, req: Request)
    requires BucketsOk(reqs, heads) && WaitingOk(reqs, waiting) && IdsOk(reqs) && r in reqs && reqs[r].ns.Some?
    requires req.ns.Some? && req.id == reqs[r].id
    ensures BucketsOk(reqs[r := req], heads) && WaitingOk(reqs[r := req], waiting) && IdsOk(reqs[r := req])
    ensures Flying(reqs[r := req]) == Flying(reqs)
  {
    BucketsKeep(reqs, reqs[r := req], heads);
    WaitingKeep(reqs, reqs[r := req], waiting);
  }

  lemma {:induction false} LoadsSwap(reqs: Requests, load: map<nat, int>, r: nat, req: Request)
    requires LoadsOk(reqs, load) && r in reqs && reqs[r].ns.Some? && req.ns.Some? && req.ns.value in load
    ensures var from, to := reqs[r].ns.value, req.ns.value;
            from in load
                && var load1 := load[from := load[from] - 1]; LoadsOk(reqs[r := req], load1[to := load1[to] + 1])
  {
    LoadsDrop(reqs, load, r);
    var from := reqs[r].ns.value;
    LoadsPut(reqs - {r}, load[from := load[from] - 1], r, req);
    assert (reqs - {r})[r := req] == reqs[r := req];
  }

  lemma {:induction false} OnSame(reqs: Requests, r: nat, req: Request)
    requires r in reqs && req.ns == reqs[r].ns
    ensures forall s: nat :: On(reqs[r := req], s) == On(reqs, s)
  {
  }

  lemma BucketsPositive(reqs: Requests, heads: seq<seq<nat>>)
    requires BucketsOk(reqs, heads)
    ensures |heads| > 0
  {
  }
}
