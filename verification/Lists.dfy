/**
  Lists of numbered things, as the library links events, requests and servers: sequences
  that start at the head.
*/
module Lists {
  // Nothing is in the list twice.
  ghost predicate NoDup(q: seq<nat>) {
    forall i, j | 0 <= i < j < |q| :: q[i] != q[j]
  }

  lemma {:induction false} Once(q: seq<nat>, e: nat)
    requires NoDup(q)
    ensures multiset(q)[e] == if e in q then 1 else 0
    decreases |q|
  {
    if |q| > 0 {
      assert q == [q[0]] + q[1..];
      Once(q[1..], e);
    }
  }

  // How many things several lists hold together.
  ghost function Lengths(qs: seq<seq<nat>>): (n: nat) {
    if |qs| == 0 then 0 else |qs[0]| + Lengths(qs[1..])
  }

  lemma {:induction false} LengthsUpdate(qs: seq<seq<nat>>, p: nat, q: seq<nat>)
    requires p < |qs|
    ensures Lengths(qs[p := q]) == Lengths(qs) - |qs[p]| + |q|
    decreases |qs|
  {
    if p == 0 {
      assert qs[0 := q][1..] == qs[1..];
    } else {
      assert qs[p := q][1..] == qs[1..][p - 1 := q];
      LengthsUpdate(qs[1..], p - 1, q);
    }
  }

  // TAILQ_REMOVE
  function Without(q: seq<nat>, e: nat): (r: seq<nat>)
    requires e in q
    ensures |r| == |q| - 1
  {
    if q[0] == e then q[1..] else [q[0]] + Without(q[1..], e)
  }

  lemma {:induction false} WithoutProps(q: seq<nat>, e: nat)
    requires e in q && NoDup(q)
    ensures NoDup(Without(q, e)) && forall x :: x in Without(q, e) <==> x in q && x != e
    decreases |q|
  {
    if q[0] != e {
      assert forall i | 0 < i < |q| :: q[1..][i - 1] == q[i];
      WithoutProps(q[1..], e);
      var r := Without(q[1..], e);
      assert q == [q[0]] + q[1..];
      forall i, j | 0 <= i < j < |[q[0]] + r| ensures ([q[0]] + r)[i] != ([q[0]] + r)[j] {
        if i == 0 {
          assert r[j - 1] in r;
        }
      }
    }
  }

  /** Exactly this one goes, and the others keep their order. */
  lemma {:induction false} WithoutCuts(q: seq<nat>, e: nat) returns (j: nat)
    requires e in q
    ensures j < |q| && q[j] == e && Without(q, e) == q[..j] + q[j + 1..]
    decreases |q|
  {
    if q[0] == e {
      j := 0;
    } else {
      var i := WithoutCuts(q[1..], e);
      j := i + 1;
      assert q[..j] == [q[0]] + q[1..][..i] && q[j + 1..] == q[1..][i + 1..];
    }
  }

  lemma {:induction false} EmptyLengths(qs: seq<seq<nat>>)
    requires forall p | 0 <= p < |qs| :: qs[p] == []
    ensures Lengths(qs) == 0
    decreases |qs|
  {
    if |qs| > 0 {
      EmptyLengths(qs[1..]);
    }
  }

  lemma {:induction false} NoLengths(qs: seq<seq<nat>>)
    requires Lengths(qs) == 0
    ensures forall p | 0 <= p < |qs| :: |qs[p]| == 0
    decreases |qs|
  {
    if |qs| > 0 {
      NoLengths(qs[1..]);
      assert forall p | 0 < p < |qs| :: qs[p] == qs[1..][p - 1];
    }
  }

  lemma {:induction false} LengthsSome(qs: seq<seq<nat>>) returns (p: nat)
    requires Lengths(qs) > 0
    ensures p < |qs| && qs[p] != []
    decreases |qs|
  {
    if qs[0] != [] {
      p := 0;
    } else {
      p := LengthsSome(qs[1..]);
      p := p + 1;
    }
  }

  ghost function Members(q: seq<nat>): (s: set<nat>) {
    set x | x in q
  }

  lemma {:induction false} MembersNext(q: seq<nat>)
    requires NoDup(q) && |q| > 0
    ensures Members(q) == Members(q[1..]) + {q[0]} && q[0] !in Members(q[1..])
  {
    assert q == [q[0]] + q[1..];
  }

  lemma {:induction false} DistinctSize(q: seq<nat>)
    requires NoDup(q)
    ensures |Members(q)| == |q|
    decreases |q|
  {
    if |q| > 0 {
      DistinctSize(q[1..]);
      MembersNext(q);
    } else {
      assert Members(q) == {};
    }
  }

  lemma {:induction false} SubsetSize(a: set<nat>, b: set<nat>)
    requires a <= b
    ensures |a| <= |b|
    decreases |a|
  {
    if a != {} {
      var x :| x in a;
      SubsetSize(a - {x}, b - {x});
    }
  }
}
