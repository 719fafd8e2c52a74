/**
  The round-robin choice of a nameserver in evdns.c. The circular list of servers is a
  sequence that starts at server_head; a server is a number, and `up` holds those whose
  state is good.
*/
module DnsServers {
  import opened Basics
  import opened Lists

  // The list as seen after server_head has moved n places on.
  function Rotate(ring: seq<nat>, n: nat): (r: seq<nat>)
    requires n <= |ring|
  {
    ring[n..] + ring[..n]
  }

  // The up servers in the order of the list.
  function UpOf(ring: seq<nat>, up: set<nat>): (r: seq<nat>) {
    if |ring| == 0 then []
    else (if ring[0] in up then [ring[0]] else []) + UpOf(ring[1..], up)
  }

  lemma {:induction false} UpOfConcat(a: seq<nat>, b: seq<nat>, up: set<nat>)
    ensures UpOf(a + b, up) == UpOf(a, up) + UpOf(b, up)
    decreases |a|
  {
    if |a| == 0 {
      assert a + b == b;
    } else {
      assert (a + b)[1..] == a[1..] + b;
      UpOfConcat(a[1..], b, up);
      Assoc(if a[0] in up then [a[0]] else [], UpOf(a[1..], up), UpOf(b, up));
    }
  }

  lemma {:induction false} UpOfNone(ring: seq<nat>, up: set<nat>)
    ensures UpOf(ring, up) == [] <==> forall s | s in ring :: s !in up
    decreases |ring|
  {
    if |ring| > 0 {
      UpOfNone(ring[1..], up);
      assert ring == [ring[0]] + ring[1..];
    }
  }

  lemma {:induction false} UpOfMembers(ring: seq<nat>, up: set<nat>, s: nat)
    ensures s in UpOf(ring, up) <==> s in ring && s in up
    ensures multiset(UpOf(ring, up))[s] == if s in up then multiset(ring)[s] else 0
    decreases |ring|
  {
    if |ring| > 0 {
      UpOfMembers(ring[1..], up, s);
      assert ring == [ring[0]] + ring[1..];
      var a := if ring[0] in up then [ring[0]] else [];
      assert multiset(a + UpOf(ring[1..], up)) == multiset(a) + multiset(UpOf(ring[1..], up));
    }
  }

  // Where nameserver_pick stops: the first server that is up, or the length.
  function FirstUp(ring: seq<nat>, up: set<nat>): (i: nat)
    ensures i <= |ring|
    ensures forall j | 0 <= j < i :: ring[j] !in up
    ensures i < |ring| ==> ring[i] in up
  {
    if |ring| == 0 || ring[0] in up then 0 else 1 + FirstUp(ring[1..], up)
  }

  /** The server picked and the list afterwards, when `good` servers are said to be up. */
  function Picked(ring: seq<nat>, up: set<nat>, good: int): (r: (Option<nat>, seq<nat>)) {
    if |ring| == 0 then (None, ring)
    else if good == 0 then (Some(Rotate(ring, 1)[0]), Rotate(ring, 1))
    else if FirstUp(ring, up) < |ring| then (Some(ring[FirstUp(ring, up)]), Rotate(ring, FirstUp(ring, up) + 1))
    else (Some(ring[0]), Rotate(ring, 1))
  }

  // The servers that n picks in a row choose.
  function Picks(ring: seq<nat>, up: set<nat>, good: int, n: nat): (r: seq<Option<nat>>)
    ensures |r| == n
    decreases n
  {
    if n == 0 then []
    else [Picked(ring, up, good).0] + Picks(Picked(ring, up, good).1, up, good, n - 1)
  }

  // The list after n picks.
  function After(ring: seq<nat>, up: set<nat>, good: int, n: nat): (r: seq<nat>)
    decreases n
  {
    if n == 0 then ring else After(Picked(ring, up, good).1, up, good, n - 1)
  }

  // A list with its first up server at i.
  lemma {:induction false} UpOfAround(ring: seq<nat>, up: set<nat>, i: nat)
    requires i < |ring| && ring[i] in up && forall j | 0 <= j < i :: ring[j] !in up
    ensures UpOf(ring, up) == [ring[i]] + UpOf(ring[i + 1..], up)
    ensures UpOf(Rotate(ring, i + 1), up) == UpOf(ring[i + 1..], up) + [ring[i]]
  {
    var before, after := ring[..i], ring[i + 1..];
    assert ring == before + ([ring[i]] + after);
    assert ring[..i + 1] == before + [ring[i]];
    UpOfNone(before, up);
    UpOfConcat(before, [ring[i]] + after, up);
    assert ([ring[i]] + after)[1..] == after;
    UpOfConcat(after, before + [ring[i]], up);
    UpOfConcat(before, [ring[i]], up);
    assert UpOf([ring[i]], up) == [ring[i]] + UpOf([], up);
  }

  // A pick of an up server moves it to the end of the up servers.
  lemma {:induction false} PickRotates(ring: seq<nat>, up: set<nat>, good: int)
    requires good != 0 && UpOf(ring, up) != []
    ensures Picked(ring, up, good).0 == Some(UpOf(ring, up)[0])
    ensures UpOf(Picked(ring, up, good).1, up) == UpOf(ring, up)[1..] + [UpOf(ring, up)[0]]
  {
    UpOfNone(ring, up);
    hide UpOf;
    var i := FirstUp(ring, up);
    assert i < |ring|;
    UpOfAround(ring, up, i);
  }

  /** Picks go through the up servers in list order, and a full round leaves that order. */
  lemma {:induction false} PicksInOrder(ring: seq<nat>, up: set<nat>, good: int, n: nat)
    requires good != 0 && UpOf(ring, up) != [] && n <= |UpOf(ring, up)|
    ensures forall k | 0 <= k < n :: Picks(ring, up, good, n)[k] == Some(UpOf(ring, up)[k])
    ensures UpOf(After(ring, up, good, n), up) == UpOf(ring, up)[n..] + UpOf(ring, up)[..n]
    decreases n
  {
    hide UpOf; hide Picked;
    var f := UpOf(ring, up);
    if n == 0 {
      assert f[n..] + f[..n] == f;
    } else {
      PickRotates(ring, up, good);
      var ring' := Picked(ring, up, good).1;
      PicksInOrder(ring', up, good, n - 1);
      TurnMore(f, n);
    }
  }

  lemma {:induction false} TurnMore(f: seq<nat>, n: nat)
    requires 0 < n <= |f|
    ensures var g := f[1..] + [f[0]];
            g[n - 1..] + g[..n - 1] == f[n..] + f[..n] && forall k | 0 < k < n :: g[k - 1] == f[k]
  {
    var g := f[1..] + [f[0]];
    assert g[n - 1..] == f[n..] + [f[0]] && g[..n - 1] == f[1..n];
    assert f[..n] == [f[0]] + f[1..n];
  }

  /**
    While nothing changes, as many picks as there are up servers choose each of them
    exactly once, and nothing else.
  */
  lemma {:induction false} RoundRobin(ring: seq<nat>, up: set<nat>)
    requires NoDup(ring)
    requires UpOf(ring, up) != []
    ensures var n := |UpOf(ring, up)|;
            forall s :: multiset(Picks(ring, up, n, n))[Some(s)] == if s in ring && s in up then 1 else 0
  {
    var f := UpOf(ring, up);
    var n := |f|;
    var p := Picks(ring, up, n, n);
    PicksInOrder(ring, up, n, n);
    forall s ensures multiset(p)[Some(s)] == if s in ring && s in up then 1 else 0 {
      SomesCount(p, f, s);
      UpOfMembers(ring, up, s);
      Once(ring, s);
    }
  }

  lemma {:induction false} SomesCount(p: seq<Option<nat>>, f: seq<nat>, s: nat)
    requires |p| == |f| && forall k | 0 <= k < |p| :: p[k] == Some(f[k])
    ensures multiset(p)[Some(s)] == multiset(f)[s]
    decreases |p|
  {
    if |p| > 0 {
      assert p == [p[0]] + p[1..] && f == [f[0]] + f[1..];
      SomesCount(p[1..], f[1..], s);
    }
  }

  /** One more pick starts from the list that the others have left. */
  lemma {:induction false} PicksMore(ring: seq<nat>, up: set<nat>, good: int, n: nat)
    ensures Picks(ring, up, good, n + 1) == Picks(ring, up, good, n) + [Picked(After(ring, up, good, n), up, good).0]
    ensures After(ring, up, good, n + 1) == Picked(After(ring, up, good, n), up, good).1
    decreases n
  {
    hide Picked;
    if n > 0 {
      PicksMore(Picked(ring, up, good).1, up, good, n - 1);
    }
  }

  /**
    While no server is good, picks go round the whole list, from the one behind the head
    on: as many as there are servers choose each of them once.
  */
  lemma {:induction false} DownGoRound(ring: seq<nat>, up: set<nat>, n: nat)
    requires n <= |ring| && |ring| > 0
    ensures After(ring, up, 0, n) == Rotate(ring, n)
    ensures forall k | 0 <= k < n :: Picks(ring, up, 0, n)[k] == Some(if k + 1 < |ring| then ring[k + 1] else ring[0])
    decreases n
  {
    if n == 0 {
      assert Rotate(ring, 0) == ring;
    } else {
      DownGoRound(ring, up, n - 1);
      PicksMore(ring, up, 0, n - 1);
      TurnOnce(ring, n - 1);
      hide Picks; hide After; hide Rotate;
    }
  }

  lemma {:induction false} TurnOnce(ring: seq<nat>, n: nat)
    requires n < |ring|
    ensures |Rotate(ring, n)| == |ring| && Rotate(Rotate(ring, n), 1) == Rotate(ring, n + 1)
    ensures Rotate(ring, n + 1)[0] == if n + 1 < |ring| then ring[n + 1] else ring[0]
  {
  }
}
