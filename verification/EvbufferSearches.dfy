/**
  Positions in an evbuffer and searching it (buffer.c, evbuffer_ptr_set,
  evbuffer_ptr_memcmp, evbuffer_search_range): the chunked buffer is searched
  without flattening it, and must answer as if it had been flattened.
*/
module EvbufferSearches {
  import opened Basics
  import opened Chains
  import opened Evbuffers

  const NOT_FOUND: Ptr := Ptr(-1, 0, 0)

  // The pattern occurs at position q of the flat bytes.
  ghost predicate MatchAt(all: seq<Byte>, what: seq<Byte>, q: int) {
    0 <= q && q + |what| <= |all| && all[q..q + |what|] == what
  }

  // No occurrence starts in from..to-1.
  ghost predicate NoMatch(all: seq<Byte>, what: seq<Byte>, from: int, to: int) {
    forall q | from <= q < to :: !MatchAt(all, what, q)
  }

  /** memchr: the least index from `from` on that holds c, or -1 */
  method MemChr(s: seq<Byte>, from: nat, c: Byte) returns (k: int)
    requires from <= |s|
    ensures k == -1 || (from <= k < |s| && s[k] == c)
    ensures forall i | from <= i < (if k == -1 then |s| else k) :: s[i] != c
  {
    k := from;
    while k < |s| && s[k] != c
      invariant from <= k <= |s|
      invariant forall i | from <= i < k :: s[i] != c
    {
      k := k + 1;
    }
    if k == |s| {
      k := -1;
    }
  }

  lemma {:induction false} PtrRange(cs: seq<Chain>, p: Ptr)
    requires PtrOk(cs, p)
    ensures 0 <= p.pos <= |Flat(cs)| && p.chain <= |cs|
    ensures p.chain < |cs| ==> p.posInChain <= cs[p.chain].off && cs[p.chain].Ok()
    ensures p.chain < |cs| ==> p.pos - p.posInChain + cs[p.chain].off <= |Flat(cs)|
    ensures p.chain == |cs| ==> p.pos == |Flat(cs)|
  {
    BytesBeforeEnd(cs);
    if p.chain < |cs| {
      BytesBeforeNext(cs, p.chain);
    }
  }

  // Moving to the start of the next chain.
  lemma {:induction false} PtrNext(cs: seq<Chain>, p: Ptr)
    requires PtrOk(cs, p) && p.chain < |cs|
    ensures PtrOk(cs, Ptr(p.pos - p.posInChain + cs[p.chain].off, p.chain + 1, 0))
  {
    BytesBeforeNext(cs, p.chain);
  }

  // A stretch of the chain the pointer is in, read from the flat view.
  lemma {:induction false} PtrSlice(cs: seq<Chain>, p: Ptr, n: nat)
    requires PtrOk(cs, p) && p.chain < |cs| && p.posInChain + n <= cs[p.chain].off
    ensures p.pos + n <= |Flat(cs)|
    ensures Flat(cs)[p.pos..p.pos + n] == cs[p.chain].Data()[p.posInChain..p.posInChain + n]
  {
    FlatSlice(cs, p.chain, p.posInChain, p.posInChain + n);
  }

  /** memcmp, as a sign: the first byte that differs decides. */
  function Compare(a: seq<Byte>, b: seq<Byte>): (c: int)
    requires |a| == |b|
    ensures -1 <= c <= 1 && (c == 0 <==> a == b)
  {
    if |a| == 0 then 0
    else if a[0] != b[0] then (if a[0] < b[0] then -1 else 1)
    else
      assert a == [a[0]] + a[1..] && b == [b[0]] + b[1..];
      Compare(a[1..], b[1..])
  }

  lemma {:induction false} FirstDifference(a: seq<Byte>, b: seq<Byte>) returns (k: nat)
    requires |a| == |b| && a != b
    ensures k < |a| && a[..k] == b[..k] && a[k] != b[k] && (Compare(a, b) < 0 <==> a[k] < b[k])
    decreases |a|
  {
    if a[0] != b[0] {
      k := 0;
    } else {
      assert a == [a[0]] + a[1..] && b == [b[0]] + b[1..];
      k := FirstDifference(a[1..], b[1..]);
      assert a[..k + 1] == [a[0]] + a[1..][..k] && b[..k + 1] == [b[0]] + b[1..][..k];
      k := k + 1;
    }
  }

  lemma {:induction false} CompareConcat(a: seq<Byte>, a': seq<Byte>, b: seq<Byte>, b': seq<Byte>)
    requires |a| == |b| && |a'| == |b'|
    ensures Compare(a + a', b + b') == if Compare(a, b) != 0 then Compare(a, b) else Compare(a', b')
    decreases |a|
  {
    if |a| == 0 {
      assert a + a' == a' && b + b' == b';
    } else {
      assert (a + a')[1..] == a[1..] + a' && (b + b')[1..] == b[1..] + b';
      CompareConcat(a[1..], a', b[1..], b');
    }
  }

  // The flat bytes from q on against the pattern.
  ghost function CompareAt(all: seq<Byte>, q: nat, what: seq<Byte>): (c: int)
    requires q + |what| <= |all|
  {
    Compare(all[q..q + |what|], what)
  }

  lemma CompareAtZero(all: seq<Byte>, q: nat, what: seq<Byte>)
    requires q + |what| <= |all|
    ensures CompareAt(all, q, what) == 0 <==> MatchAt(all, what, q)
    ensures |what| == 0 ==> CompareAt(all, q, what) == 0
  {
  }

  // Comparing from q on is comparing n bytes and then the others.
  lemma {:induction false} CompareSplit(all: seq<Byte>, what: seq<Byte>, q: nat, n: nat)
    requires q + |what| <= |all| && n <= |what|
    ensures var first := Compare(all[q..q + n], what[..n]);
            CompareAt(all, q, what) == if first != 0 then first else CompareAt(all, q + n, what[n..])
  {
    hide Compare;
    var w := all[q..q + |what|];
    assert w == w[..n] + w[n..] && what == what[..n] + what[n..];
    assert w[..n] == all[q..q + n] && w[n..] == all[q + n..q + |what|];
    CompareConcat(w[..n], w[n..], what[..n], what[n..]);
  }

  /** evbuffer_ptr_memcmp: the comparison with the flat bytes at the position, -1 when they do not reach */
  method PtrMemcmp(buf: Evbuffer, pos: Ptr, what: seq<Byte>) returns (r: int)
    requires buf.Valid() && (pos.pos >= 0 ==> PtrOk(buf.chains, pos))
    ensures var all := buf.Contents();
            r == if pos.pos < 0 || pos.pos + |what| > SIZE_MAX || pos.pos + |what| > |all| then -1
                 else CompareAt(all, pos.pos, what)
    ensures r == 0 <==> pos.pos >= 0 && pos.pos + |what| <= SIZE_MAX && MatchAt(buf.Contents(), what, pos.pos)
  {
    hide Flat; hide DataPrefix; hide PtrOk; hide PlaceOk; hide Compare; hide CompareAt; hide MatchAt;
    var cs := buf.chains;
    ghost var all := Flat(cs);
    MatchBound(all, what, pos.pos);
    if pos.pos < 0 || SIZE_MAX - |what| < pos.pos || pos.pos + |what| > buf.totalLen {
      return -1;
    }
    CompareAtZero(all, pos.pos, what);
    var at, mem := pos, what;
    ghost var whole := CompareAt(all, pos.pos, what);
    while |mem| > 0 && at.chain < |cs|
      invariant PtrOk(cs, at) && 0 <= at.pos && at.pos + |mem| <= |all|
      invariant whole == CompareAt(all, at.pos, mem)
      decreases |cs| - at.chain
    {
      PtrRange(cs, at);
      var chain := cs[at.chain];
      var n := if |mem| + at.posInChain > chain.off then chain.off - at.posInChain else |mem|;
      PtrSlice(cs, at, n);
      CompareSplit(all, mem, at.pos, n);
      PtrNext(cs, at);
      r := Compare(chain.Data()[at.posInChain..at.posInChain + n], mem[..n]);
      if r != 0 {
        return r;
      }
      mem := mem[n..];
      CompareAtZero(all, at.pos + n, mem);
      if |mem| == 0 {
        return 0;
      }
      at := Ptr(at.pos + n, at.chain + 1, 0);
    }
    PtrRange(cs, at);
    CompareAtZero(all, at.pos, mem);
    return 0;
  }

  lemma MatchBound(all: seq<Byte>, what: seq<Byte>, q: int)
    ensures MatchAt(all, what, q) ==> 0 <= q && q + |what| <= |all|
  {
  }

  // A position whose byte is not the pattern's first is no occurrence.
  lemma {:induction false} FirstByteAbsent(cs: seq<Chain>, p: Ptr, what: seq<Byte>, n: nat)
    requires PtrOk(cs, p) && p.chain < |cs| && p.posInChain + n <= cs[p.chain].off && |what| > 0
    requires forall i | p.posInChain <= i < p.posInChain + n :: cs[p.chain].Data()[i] != what[0]
    ensures NoMatch(Flat(cs), what, p.pos, p.pos + n)
  {
    PtrSlice(cs, p, n);
    hide Flat;
    var all, d := Flat(cs), cs[p.chain].Data();
    forall q | p.pos <= q < p.pos + n ensures !MatchAt(all, what, q) {
      var i := q - p.pos;
      assert all[p.pos..p.pos + n][i] == d[p.posInChain..p.posInChain + n][i];
      assert all[q] == d[p.posInChain + i] != what[0];
    }
  }

  /** The two ways evbuffer_ptr_set moves a pointer. */
  datatype PtrHow = PTR_SET | PTR_ADD

  /**
    evbuffer_ptr_set: the pointer to a position counted from the start or from pos. The
    place is right for every position; the position itself is kept in a ssize_t, and above
    its range the pointer counts as not found although the result is 0.
  */
  method PtrSet(buf: Evbuffer, pos: Ptr, position: nat, how: PtrHow) returns (r: int, p: Ptr)
    requires buf.Valid() && position <= SIZE_MAX && pos.pos <= SSIZE_MAX
              && (how == PTR_ADD && pos.pos >= 0 ==> PtrOk(buf.chains, pos))
    ensures var target := if how == PTR_SET then position else pos.pos + position;
            if how == PTR_ADD && (pos.pos < 0 || target > SIZE_MAX) then r == -1 && p == pos
            else if target > |buf.Contents()| then r == -1 && p.pos == -1
            else
              && r == 0 && p.pos == ToInt32(target) && PlaceOk(buf.chains, p, target)
              && (p.chain < |buf.chains| ==> p.posInChain < buf.chains[p.chain].off)
              && (PtrOk(buf.chains, p) <==> target <= SSIZE_MAX) && (p.pos < 0 <==> target > SSIZE_MAX)
  {
    hide Flat; hide DataPrefix;
    var cs := buf.chains;
    BytesBeforeEnd(cs);
    var at := Ptr(0, 0, 0);
    if how == PTR_ADD {
      if pos.pos < 0 || SIZE_MAX - position < pos.pos {
        return -1, pos;
      }
      at := pos;
    }
    var left: int := position;
    ghost var target := at.pos + left;
    var stored := ToInt32(at.pos + left);
    while at.chain < |cs| && at.posInChain + left >= cs[at.chain].off
      invariant PtrOk(cs, at) && at.pos + left == target && left >= 0
      decreases |cs| - at.chain
    {
      var off := cs[at.chain].off;
      PtrNext(cs, at);
      left := left - (off - at.posInChain);
      at := Ptr(at.pos - at.posInChain + off, at.chain + 1, 0);
    }
    PtrRange(cs, at);
    if at.chain < |cs| {
      r, p := 0, Ptr(stored, at.chain, at.posInChain + left);
    } else if left == 0 {
      r, p := 0, Ptr(stored, at.chain, 0);
    } else {
      r, p := -1, NOT_FOUND;
    }
  }

  /** evbuffer_search_range */
  method SearchRange(buf: Evbuffer, what: seq<Byte>, start: Option<Ptr>, end: Option<Ptr>) returns (r: Ptr)
    requires buf.Valid() && buf.totalLen <= SSIZE_MAX
    requires start.Some? ==> PtrOk(buf.chains, start.value)
    requires end.Some? ==> PtrOk(buf.chains, end.value)
    ensures var all := buf.Contents();
            var from := if start.Some? then start.value.pos else 0;
            var limit := if end.Some? then end.value.pos else |all|;
            if |what| == 0 || |what| > SSIZE_MAX then
              r.pos == from && PtrOk(buf.chains, r)
            else if r.pos == -1 then
              forall q | from <= q && q + |what| <= limit :: !MatchAt(all, what, q)
            else
              && PtrOk(buf.chains, r) && from <= r.pos && r.pos + |what| <= limit
              && MatchAt(all, what, r.pos) && NoMatch(all, what, from, r.pos)
  {
    BytesBeforeEnd(buf.chains);
    var pos := if start.Some? then start.value else Ptr(0, 0, 0);
    if |what| == 0 || |what| > SSIZE_MAX {
      return pos;
    }
    r := SearchLoop(buf, what, pos, end);
  }

  method SearchLoop(buf: Evbuffer, what: seq<Byte>, start: Ptr, end: Option<Ptr>) returns (r: Ptr)
    requires buf.Valid() && buf.totalLen <= SSIZE_MAX && 0 < |what| <= SSIZE_MAX
    requires PtrOk(buf.chains, start)
    requires end.Some? ==> PtrOk(buf.chains, end.value)
    ensures var all := buf.Contents();
            var limit := if end.Some? then end.value.pos else |all|;
            if r.pos == -1 then
              forall q | start.pos <= q && q + |what| <= limit :: !MatchAt(all, what, q)
            else
              && PtrOk(buf.chains, r) && start.pos <= r.pos && r.pos + |what| <= limit
              && MatchAt(all, what, r.pos) && NoMatch(all, what, start.pos, r.pos)
  {
    hide MatchAt;
    hide Flat;
    hide DataPrefix;
    var cs := buf.chains;
    ghost var all := Flat(cs);
    if end.Some? {
      PtrRange(cs, end.value);
    }
    var pos := start;
    while pos.chain < |cs|
      invariant PtrOk(cs, pos) && start.pos <= pos.pos && NoMatch(all, what, start.pos, pos.pos)
      decreases |cs| - pos.chain, |all| - pos.pos
    {
      var chain := cs[pos.chain];
      PtrRange(cs, pos);
      var k := MemChr(chain.Data(), pos.posInChain, what[0]);
      if k >= 0 {
        FirstByteAbsent(cs, pos, what, k - pos.posInChain);
        pos := Ptr(pos.pos + (k - pos.posInChain), pos.chain, k);
        var differs := PtrMemcmp(buf, pos, what);
        MatchBound(all, what, pos.pos);
        if differs == 0 {
          if end.Some? && pos.pos + |what| > end.value.pos {
            return NOT_FOUND;
          }
          return pos;
        }
        pos := Ptr(pos.pos + 1, pos.chain, pos.posInChain + 1);
        if pos.posInChain == chain.off {
          PtrNext(cs, pos);
          pos := Ptr(pos.pos, pos.chain + 1, 0);
        }
      } else {
        FirstByteAbsent(cs, pos, what, chain.off - pos.posInChain);
        if end.Some? && pos.chain == end.value.chain {
          // whatever starts in a later chain starts at or behind `end`
          assert pos.pos + (chain.off - pos.posInChain) >= end.value.pos;
          return NOT_FOUND;
        }
        PtrNext(cs, pos);
        pos := Ptr(pos.pos + (chain.off - pos.posInChain), pos.chain + 1, 0);
      }
    }
    PtrRange(cs, pos);
    r := NOT_FOUND;
  }
}
