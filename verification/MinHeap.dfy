/**
  The binary heap of minheap-internal.h, which keeps the deadlines of an event base: an
  array of events, each knowing its own place in it. It is the priority queue that the
  event loop relies on.
*/
module MinHeap {
  import opened Basics

  // A place in the heap that is not the top has this one above it.
  function Parent(i: nat): (j: nat)
    requires i > 0
    ensures j < i && (i == 2 * j + 1 || i == 2 * j + 2)
  {
    (i - 1) / 2
  }

  ghost predicate Keyed(q: seq<nat>, key: map<nat, int>) {
    forall i | 0 <= i < |q| :: q[i] in key
  }

  ghost predicate Ordered(q: seq<nat>, key: map<nat, int>)
    requires Keyed(q, key)
  {
    forall i | 1 <= i < |q| :: key[q[Parent(i)]] <= key[q[i]]
  }

  // What is below place h is not less than what is above it.
  ghost predicate Bridged(q: seq<nat>, key: map<nat, int>, h: nat)
    requires Keyed(q, key) && h < |q|
  {
    forall i | 1 <= i < |q| && Parent(i) == h && h > 0 :: key[q[Parent(h)]] <= key[q[i]]
  }

  // In order, but for the element at h, which may have to go up.
  ghost predicate RisingAt(q: seq<nat>, key: map<nat, int>, h: nat)
    requires Keyed(q, key) && h < |q|
  {
    (forall i | 1 <= i < |q| && i != h :: key[q[Parent(i)]] <= key[q[i]]) && Bridged(q, key, h)
  }

  // In order, but for the element at h, which may have to go down.
  ghost predicate SinkingAt(q: seq<nat>, key: map<nat, int>, h: nat)
    requires Keyed(q, key) && h < |q|
  {
    (forall i | 1 <= i < |q| && Parent(i) != h :: key[q[Parent(i)]] <= key[q[i]]) && Bridged(q, key, h)
  }

  function Swapped(q: seq<nat>, a: nat, b: nat): (r: seq<nat>)
    requires a < |q| && b < |q|
    ensures |r| == |q|
  {
    q[a := q[b]][b := q[a]]
  }

  lemma {:induction false} RiseStep(q: seq<nat>, key: map<nat, int>, h: nat)
    requires Keyed(q, key) && 0 < h < |q| && RisingAt(q, key, h) && key[q[h]] < key[q[Parent(h)]]
    ensures Keyed(Swapped(q, h, Parent(h)), key) && RisingAt(Swapped(q, h, Parent(h)), key, Parent(h))
  {
    var g := Parent(h);
    var r := Swapped(q, h, g);
    assert forall i | 0 <= i < |q| :: r[i] == if i == h then q[g] else if i == g then q[h] else q[i];
    forall i | 1 <= i < |r| && i != g ensures key[r[Parent(i)]] <= key[r[i]] {
      if i != h && Parent(i) == h {
        assert key[q[Parent(h)]] <= key[q[i]];
      } else if i != h {
        assert key[q[Parent(i)]] <= key[q[i]];
      }
    }
    forall i | 1 <= i < |r| && Parent(i) == g && g > 0 ensures key[r[Parent(g)]] <= key[r[i]] {
      assert key[q[Parent(g)]] <= key[q[g]];
      assert i != h ==> key[q[Parent(i)]] <= key[q[i]];
    }
  }

  lemma RiseDone(q: seq<nat>, key: map<nat, int>, h: nat)
    requires Keyed(q, key) && h < |q| && RisingAt(q, key, h) && (h > 0 ==> key[q[Parent(h)]] <= key[q[h]])
    ensures Ordered(q, key)
  {
  }

  lemma {:induction false} SinkStep(q: seq<nat>, key: map<nat, int>, h: nat, c: nat)
    requires Keyed(q, key) && h < |q| && 0 < c < |q| && Parent(c) == h && SinkingAt(q, key, h)
    requires key[q[c]] < key[q[h]] && forall i | 1 <= i < |q| && Parent(i) == h :: key[q[c]] <= key[q[i]]
    ensures Keyed(Swapped(q, h, c), key) && SinkingAt(Swapped(q, h, c), key, c)
  {
    var r := Swapped(q, h, c);
    assert forall i | 0 <= i < |q| :: r[i] == if i == h then q[c] else if i == c then q[h] else q[i];
    forall i | 1 <= i < |r| && Parent(i) != c ensures key[r[Parent(i)]] <= key[r[i]] {
      if i == h {
        assert key[q[Parent(h)]] <= key[q[c]];
      } else if Parent(i) != h {
        assert key[q[Parent(i)]] <= key[q[i]];
      }
    }
    forall i | 1 <= i < |r| && Parent(i) == c ensures key[r[Parent(c)]] <= key[r[i]] {
      assert key[q[Parent(i)]] <= key[q[i]];
    }
  }

  lemma SinkDone(q: seq<nat>, key: map<nat, int>, h: nat)
    requires Keyed(q, key) && h < |q| && SinkingAt(q, key, h) && forall i | 1 <= i < |q| && Parent(i) == h ::
              key[q[h]] <= key[q[i]]
    ensures Ordered(q, key)
  {
  }

  /** The top is least. */
  lemma {:induction false} TopLeast(q: seq<nat>, key: map<nat, int>, i: nat)
    requires Keyed(q, key) && Ordered(q, key) && i < |q|
    ensures key[q[0]] <= key[q[i]]
    decreases i
  {
    if i > 0 {
      TopLeast(q, key, Parent(i));
    }
  }

  // ------------------------------------------------------------------------
  // Every event knows its place

  ghost predicate Indexed(q: seq<nat>, idx: map<nat, int>) {
    && (forall i | 0 <= i < |q| :: q[i] in idx && idx[q[i]] == i)
    && forall e | e in idx :: idx[e] == -1 || (0 <= idx[e] < |q| && q[idx[e]] == e)
  }

  // Everybody does but e, which is on its way to h.
  ghost predicate IndexedBut(q: seq<nat>, idx: map<nat, int>, e: nat, h: nat) {
    && h < |q| && q[h] == e && e in idx
    && (forall i | 0 <= i < |q| && i != h :: q[i] in idx && q[i] != e && idx[q[i]] == i)
    && forall x | x in idx && x != e :: idx[x] == -1 || (0 <= idx[x] < |q| && idx[x] != h && q[idx[x]] == x)
  }

  lemma {:induction false} IndexStep(q: seq<nat>, idx: map<nat, int>, e: nat, h: nat, g: nat)
    requires IndexedBut(q, idx, e, h) && g < |q| && g != h
    ensures IndexedBut(Swapped(q, h, g), idx[q[g] := h], e, g)
  {
    var r := Swapped(q, h, g);
    assert forall i | 0 <= i < |q| :: r[i] == if i == h then q[g] else if i == g then q[h] else q[i];
  }

  lemma {:induction false} IndexDone(q: seq<nat>, idx: map<nat, int>, e: nat, h: nat)
    requires IndexedBut(q, idx, e, h)
    ensures Indexed(q, idx[e := h])
  {
  }

  class Heap {
    var p: seq<nat>
    var n: nat
    var key: map<nat, int>
    var idx: map<nat, int>

    ghost predicate Valid()
      reads this
    {
      && n <= |p| && Indexed(p[..n], idx) && Keyed(p[..n], key) && Ordered(p[..n], key)
      && forall e | e in idx :: e in key
    }

    // The events in the heap.
    ghost function Elements(): (s: set<nat>)
      reads this
    {
      Placed(idx)
    }

    constructor ()
      ensures Valid() && Elements() == {} && idx == map[]
    {
      p, n, key, idx := [], 0, map[], map[];
    }

    // The heap as it will be once e is put into the hole.
    ghost function With(hole: nat, e: nat): (q: seq<nat>)
      reads this
      requires hole < n <= |p|
    {
      p[..n][hole := e]
    }

    // p[hole] := p[from], and the event there learns of it
    method Move(hole: nat, from: nat, ghost e: nat)
      requires hole < n <= |p| && from < n && from != hole && IndexedBut(With(hole, e), idx, e, hole)
      modifies this`p, this`idx
      ensures |p| == |old(p)| && With(from, e) == Swapped(old(With(hole, e)), hole, from)
      ensures IndexedBut(With(from, e), idx, e, from) && SameElements(old(idx), idx, e)
    {
      ghost var q := With(hole, e);
      IndexStep(q, idx, e, hole, from);
      assert q[from] == p[from] && p[from] in idx && idx[p[from]] >= 0;
      hide IndexedBut;
      idx := idx[p[from] := hole];
      p := p[hole := p[from]];
      assert With(from, e) == Swapped(q, hole, from);
    }

    // p[hole] := e
    method Put(hole: nat, e: nat)
      requires hole < n <= |p| && IndexedBut(With(hole, e), idx, e, hole) && Keyed(With(hole, e), key)
                && Ordered(With(hole, e), key)
      requires forall x | x in idx :: x in key
      modifies this`p, this`idx
      ensures Valid() && SameElements(old(idx), idx, e) && e in idx && idx[e] >= 0 && |p| == |old(p)|
    {
      ghost var q := With(hole, e);
      IndexDone(q, idx, e, hole);
      assert e in idx;
      hide IndexedBut; hide Indexed; hide Ordered;
      p := p[hole := e];
      idx := idx[e := hole];
      assert p[..n] == q;
    }

    /** min_heap_shift_up_, and min_heap_shift_up_unconditional_ where its first step is due anyway */
    method ShiftUp(hole0: nat, e: nat)
      requires hole0 < n <= |p| && IndexedBut(With(hole0, e), idx, e, hole0) && Keyed(With(hole0, e), key)
                && RisingAt(With(hole0, e), key, hole0)
      requires forall x | x in idx :: x in key
      modifies this`p, this`idx
      ensures Valid() && SameElements(old(idx), idx, e) && e in idx && idx[e] >= 0
    {
      hide IndexedBut; hide RisingAt; hide Ordered;
      var hole: nat := hole0;
      ghost var q := With(hole, e);
      assert q[hole] == e;
      while hole > 0 && KeyAt(Parent(hole), hole, e) > key[e]
        invariant hole < n <= |p| && q == With(hole, e) && q[hole] == e && IndexedBut(q, idx, e, hole) && Keyed(q, key)
                  && RisingAt(q, key, hole)
        invariant SameElements(old(idx), idx, e) && n == old(n) && key == old(key)
      {
        assert q[hole] == e && q[Parent(hole)] == p[Parent(hole)];
        RiseStep(q, key, hole);
        Move(hole, Parent(hole), e);
        q := With(Parent(hole), e);
        hole := Parent(hole);
      }
      assert q[hole] == e && (hole > 0 ==> q[Parent(hole)] == p[Parent(hole)]);
      RiseDone(q, key, hole);
      Put(hole, e);
    }

    // The deadline of the event in place i, which is not the hole.
    function KeyAt(i: nat, ghost hole: nat, ghost e: nat): (k: int)
      reads this
      requires hole < n <= |p| && i < n && i != hole && Keyed(With(hole, e), key)
      ensures k == key[With(hole, e)[i]]
    {
      assert With(hole, e)[i] == p[i];
      key[p[i]]
    }

    // The lesser of the places below a hole that has one below it.
    method LesserChild(hole: nat, ghost e: nat) returns (c: nat)
      requires hole < n <= |p| && 2 * hole + 1 < n && Keyed(With(hole, e), key)
      ensures 0 < c < n && Parent(c) == hole
      ensures var q := With(hole, e); forall i | 1 <= i < |q| && Parent(i) == hole :: key[q[c]] <= key[q[i]]
    {
      c := 2 * (hole + 1);
      if c == n || KeyAt(c, hole, e) > KeyAt(c - 1, hole, e) {
        c := c - 1;
      }
    }

    /** min_heap_shift_down_ */
    method ShiftDown(hole0: nat, e: nat)
      requires hole0 < n <= |p| && IndexedBut(With(hole0, e), idx, e, hole0) && Keyed(With(hole0, e), key)
                && SinkingAt(With(hole0, e), key, hole0)
      requires forall x | x in idx :: x in key
      modifies this`p, this`idx
      ensures Valid() && SameElements(old(idx), idx, e) && e in idx && idx[e] >= 0
    {
      hide IndexedBut; hide SinkingAt; hide Ordered;
      var hole: nat := hole0;
      ghost var q := With(hole, e);
      while 2 * (hole + 1) <= n
        invariant hole < n <= |p| && q == With(hole, e) && IndexedBut(q, idx, e, hole) && Keyed(q, key)
                  && SinkingAt(q, key, hole)
        invariant SameElements(old(idx), idx, e) && n == old(n) && key == old(key)
        decreases n - hole
      {
        var c := LesserChild(hole, e);
        assert q[hole] == e && q[c] == p[c];
        if !(key[e] > KeyAt(c, hole, e)) {
          break;
        }
        SinkStep(q, key, hole, c);
        Move(hole, c, e);
        q := With(c, e);
        hole := c;
      }
      assert q[hole] == e;
      SinkDone(q, key, hole);
      Put(hole, e);
    }

    /** min_heap_push_ of an event with this deadline; false without memory */
    method Push(e: nat, deadline: int, memory: bool) returns (ok: bool)
      requires Valid() && (e in idx ==> idx[e] == -1)
      modifies this
      ensures Valid() && (ok <==> memory || old(n) < |old(p)|)
      ensures Elements() == if ok then old(Elements()) + {e} else old(Elements())
      ensures key == old(key)[e := deadline] && forall x | x in old(idx) :: x in idx
    {
      Rekeyed(p[..n], key, idx, e, deadline);
      hide Indexed; hide Keyed; hide Ordered;
      key := key[e := deadline];
      if e !in idx {
        idx := idx[e := -1];
      }
      if |p| < n + 1 {
        if !memory {
          return false;
        }
        Reserve();
      }
      PushAt(e);
      return true;
    }

    // min_heap_reserve_ for one more
    method Reserve()
      requires Valid() && |p| == n
      modifies this`p
      ensures Valid() && |p| > n && p[..n] == old(p) && |p| == if |old(p)| == 0 then 8 else 2 * |old(p)|
    {
      hide Indexed; hide Keyed; hide Ordered;
      var a := if |p| > 0 then 2 * |p| else 8;
      if a < n + 1 {
        a := n + 1;
      }
      ghost var q := p;
      assert q[..n] == q;
      p := p + seq(a - |p|, _ => 0);
      assert p[..n] == q;
    }

    method PushAt(e: nat)
      requires Valid() && n < |p| && e in idx && idx[e] == -1
      modifies this`p, this`n, this`idx
      ensures Valid() && SameElements(old(idx), idx, e) && e in idx && idx[e] >= 0
    {
      LastHole(p, n, key, idx, e);
      hide Indexed; hide IndexedBut; hide Keyed; hide Ordered; hide RisingAt;
      n := n + 1;
      ShiftUp(n - 1, e);
    }

    /** min_heap_top_ */
    method Top() returns (e: Option<nat>)
      requires Valid()
      ensures e.None? <==> Elements() == {}
      ensures e.Some? ==> e.value in Elements() && forall x | x in Elements() && x in key ::
                e.value in key && key[e.value] <= key[x]
    {
      if n == 0 {
        assert Elements() == {};
        return None;
      }
      var q := p[..n];
      assert p[0] == q[0] && idx[q[0]] == 0;
      assert p[0] in Elements();
      forall x | x in Elements() ensures p[0] in key && x in key && key[p[0]] <= key[x] {
        assert q[idx[x]] == x;
        TopLeast(q, key, idx[x]);
      }
      return Some(p[0]);
    }

    /** min_heap_erase_: the last event takes the place, and goes up or down from there */
    method Erase(e: nat) returns (r: int)
      requires Valid() && e in idx
      modifies this`p, this`n, this`idx
      ensures Valid() && r == if old(idx)[e] == -1 then -1 else 0
      ensures Elements() == old(Elements()) - {e}
    {
      if idx[e] == -1 {
        return -1;
      }
      hide Indexed; hide IndexedBut; hide Keyed; hide Ordered; hide RisingAt; hide SinkingAt; hide SameElements;
      hide Placed;
      EraseFacts(e);
      var hole: nat, last := idx[e], p[n - 1];
      n := n - 1;
      idx := idx[e := -1];
      if hole == n {
        // the last event itself: the source writes it back behind the end
        return 0;
      }
      Refill(hole, last);
      PlacedWithout(old(idx), idx, e, last);
      return 0;
    }

    lemma ValidPlaces() returns (q: seq<nat>)
      requires Valid()
      ensures n <= |p| && q == p[..n] && Indexed(q, idx) && Keyed(q, key) && Ordered(q, key)
    {
      q := p[..n];
    }

    // How things stand once the last place is given up and e is marked as out.
    lemma EraseFacts(e: nat)
      requires Valid() && e in idx && idx[e] != -1
      ensures 0 <= idx[e] < n && p[n - 1] in idx && p[n - 1] in key
      ensures idx[e] == n - 1 ==>
                && Indexed(p[..n - 1], idx[e := -1]) && Keyed(p[..n - 1], key) && Ordered(p[..n - 1], key)
                && Placed(idx[e := -1]) == Placed(idx) - {e}
      ensures idx[e] < n - 1 ==>
                var h, last := idx[e], p[n - 1]; var q := p[..n - 1][h := last];
                && last != e && idx[last] >= 0 && IndexedBut(q, idx[e := -1], last, h) && Keyed(q, key)
                && if h > 0 && key[q[Parent(h)]] > key[q[h]] then RisingAt(q, key, h) else SinkingAt(q, key, h)
    {
      hide *;
      var q := ValidPlaces();
      IndexRange(q, idx, e);
      LastOutIndexed(q, idx, e);
      LastOutOrdered(q, key, idx[e]);
      PlacedBut(idx, e);
      assert q[n - 1] == p[n - 1] && q[..n - 1] == p[..n - 1];
    }

    // The place of an erased event goes to the last one, which moves up or down from there.
    method Refill(hole: nat, last: nat)
      requires hole < n <= |p| && IndexedBut(With(hole, last), idx, last, hole) && Keyed(With(hole, last), key)
      requires var q := With(hole, last);
               if hole > 0 && key[q[Parent(hole)]] > key[q[hole]] then RisingAt(q, key, hole)
                   else SinkingAt(q, key, hole)
      requires (forall x | x in idx :: x in key) && last in idx && idx[last] >= 0
      modifies this`p, this`idx
      ensures Valid() && SameElements(old(idx), idx, last) && last in idx && idx[last] >= 0
    {
      assert With(hole, last)[hole] == last;
      if hole > 0 && KeyAt(Parent(hole), hole, last) > key[last] {
        ShiftUp(hole, last);
      } else {
        ShiftDown(hole, last);
      }
    }
  }

  ghost function Placed(idx: map<nat, int>): (s: set<nat>) {
    set e | e in idx && idx[e] >= 0
  }

  lemma PlacedBut(idx: map<nat, int>, e: nat)
    ensures Placed(idx[e := -1]) == Placed(idx) - {e}
  {
  }

  lemma IndexRange(q: seq<nat>, idx: map<nat, int>, e: nat)
    requires Indexed(q, idx) && e in idx && idx[e] != -1
    ensures 0 <= idx[e] < |q|
  {
  }

  // Once e is out and the last one has its place again.
  lemma {:induction false} PlacedWithout(idx0: map<nat, int>, idx: map<nat, int>, e: nat, last: nat)
    requires e in idx0 && last in idx0 && last != e && idx0[last] >= 0
    requires SameElements(idx0[e := -1], idx, last) && last in idx && idx[last] >= 0
    ensures Placed(idx) == Placed(idx0) - {e}
  {
    forall x ensures x in Placed(idx) <==> x in Placed(idx0) && x != e {
      assert x in idx <==> x in idx0;
    }
  }

  // The same events have a place, e perhaps excepted.
  ghost predicate SameElements(idx0: map<nat, int>, idx: map<nat, int>, e: nat) {
    idx.Keys == idx0.Keys && forall x | x in idx0 && x != e :: idx[x] >= 0 <==> idx0[x] >= 0
  }

  // An event that is not in the heap may get another deadline.
  lemma {:induction false} Rekeyed(q: seq<nat>, key: map<nat, int>, idx: map<nat, int>, e: nat, k: int)
    requires Indexed(q, idx) && Keyed(q, key) && Ordered(q, key) && (e in idx ==> idx[e] == -1)
    ensures Keyed(q, key[e := k]) && Ordered(q, key[e := k]) && e !in q
    ensures Indexed(q, if e in idx then idx else idx[e := -1])
  {
  }

  // A new place at the end, with e in it.
  lemma {:induction false} LastHole(p: seq<nat>, n: nat, key: map<nat, int>, idx: map<nat, int>, e: nat)
    requires n < |p| && Indexed(p[..n], idx) && Keyed(p[..n], key) && Ordered(p[..n], key) && e in idx && idx[e] == -1
              && e in key
    ensures var q := p[..n + 1][n := e];
            IndexedBut(q, idx, e, n) && Keyed(q, key) && RisingAt(q, key, n)
  {
    var q := p[..n + 1][n := e];
    assert forall i | 0 <= i < n :: q[i] == p[..n][i];
    assert e !in p[..n];
  }

  // The last event in the place of e, which is gone: who knows his place.
  lemma {:induction false} LastOutIndexed(s: seq<nat>, idx: map<nat, int>, e: nat)
    requires Indexed(s, idx) && e in idx && idx[e] >= 0
    ensures |s| > 0 && idx[e] < |s|
    ensures var last := s[|s| - 1]; last in idx && idx[last] == |s| - 1 && (idx[e] < |s| - 1 ==> last != e)
    ensures var n, h := |s| - 1, idx[e];
            if h == n then s[n] == e && Indexed(s[..n], idx[e := -1])
                else IndexedBut(s[..n][h := s[n]], idx[e := -1], s[n], h)
  {
    var n, h := |s| - 1, idx[e];
    assert forall i | 0 <= i < n :: s[..n][i] == s[i];
    assert forall i | 0 <= i < |s| && i != h :: s[i] != e;
    if h < n {
      var q := s[..n][h := s[n]];
      assert forall i | 0 <= i < n :: q[i] == if i == h then s[n] else s[i];
    }
  }

  // The same: what is in order.
  lemma {:induction false} LastOutOrdered(s: seq<nat>, key: map<nat, int>, h: nat)
    requires Keyed(s, key) && Ordered(s, key) && h < |s|
    ensures s[|s| - 1] in key
    ensures var n := |s| - 1; Keyed(s[..n], key) && Ordered(s[..n], key)
    ensures h < |s| - 1 ==>
              var last := s[|s| - 1]; var q := s[..|s| - 1][h := last];
              && Keyed(q, key)
              && if h > 0 && key[q[Parent(h)]] > key[last] then RisingAt(q, key, h) else SinkingAt(q, key, h)
  {
    var n := |s| - 1;
    assert forall i | 0 <= i < n :: s[..n][i] == s[i];
    if h < n {
      var q := s[..n][h := s[n]];
      assert forall i | 0 <= i < n :: q[i] == if i == h then s[n] else s[i];
      assert Keyed(q, key);
      assert Bridged(q, key, h) by {
        forall i | 1 <= i < n && Parent(i) == h && h > 0 ensures key[q[Parent(h)]] <= key[q[i]] {
          assert key[s[Parent(i)]] <= key[s[i]] && key[s[Parent(h)]] <= key[s[h]];
        }
      }
      forall i | 1 <= i < n && i != h && Parent(i) != h ensures key[q[Parent(i)]] <= key[q[i]] {
        assert key[s[Parent(i)]] <= key[s[i]];
      }
      if h > 0 && key[q[Parent(h)]] > key[s[n]] {
        forall i | 1 <= i < n && Parent(i) == h ensures key[q[h]] <= key[q[i]] {
          assert key[s[Parent(i)]] <= key[s[i]] && key[s[Parent(h)]] <= key[s[h]];
        }
      }
    }
  }
}
