/**
  The evbuffer of buffer.c: a byte queue kept in a list of chains, with a cached
  last chain, a cached length, and a cached link to the last chain holding data.

  A link is written as an index: link 0 is `first`, link k is chains[k-1].next,
  so the chain a link designates is chains[link] (or NULL when link == |chains|).
  The pointer `last` is the index of the chain it points at, -1 for NULL.
*/
module Evbuffers {
  import opened Basics
  import opened Chains

  /**
    Every chain up to the designated one holds data and every later one is empty;
    only when the designated chain is the first may it be empty itself.
  */
  ghost predicate DataPrefix(cs: seq<Chain>, link: nat) {
    && (link > 0 ==> link < |cs| && forall i | 0 <= i <= link :: cs[i].off > 0)
    && (forall i | link < i < |cs| :: cs[i].off == 0)
  }

  lemma {:induction false} EmptyIffFirstEmpty(cs: seq<Chain>, link: nat)
    requires AllOk(cs) && DataPrefix(cs, link)
    ensures |Flat(cs)| == 0 <==> (|cs| == 0 || cs[0].off == 0)
    ensures |Flat(cs)| == 0 ==> link == 0
    ensures |Flat(cs)| > 0 ==> link < |cs| && forall i | 0 <= i <= link :: cs[i].off > 0
  {
    if |cs| != 0 && cs[0].off == 0 {
      FlatEmpty(cs);
    }
  }

  // Cutting the list anywhere behind its data loses nothing.
  lemma {:induction false} FlatTrim(cs: seq<Chain>, k: nat)
    requires AllOk(cs) && k <= |cs| && AllEmpty(cs[k..])
    ensures Flat(cs[..k]) == Flat(cs)
  {
    FlatSplit(cs, k);
    FlatEmpty(cs[k..]);
  }

  // Growing the designated chain grows the whole at its end.
  lemma {:induction false} FlatGrow(cs: seq<Chain>, link: nat, c: Chain, more: seq<Byte>)
    requires AllOk(cs) && DataPrefix(cs, link) && link < |cs|
    requires c.Ok() && c.Data() == cs[link].Data() + more
    ensures AllOk(cs[link := c]) && Flat(cs[link := c]) == Flat(cs) + more
    ensures DataPrefix(cs[link := c], link)
  {
    FlatAt(cs, link);
    FlatUpdate(cs, link, c);
    FlatEmpty(cs[link + 1..]);
    var pre, d := Flat(cs[..link]), cs[link].Data();
    assert pre + d + [] == pre + d;
    assert pre + (d + more) + [] == pre + (d + more);
    Assoc(pre, d, more);
  }

  // The link where a new chain goes: behind the data, over the empty chains.
  function InsertAt(cs: seq<Chain>, link: nat): (k: nat)
    requires DataPrefix(cs, link)
    ensures k <= |cs|
  {
    if link < |cs| && cs[link].off > 0 then link + 1 else 0
  }

  lemma {:induction false} InsertKeepsShape(cs: seq<Chain>, link: nat, chain: Chain)
    requires AllOk(cs) && DataPrefix(cs, link) && chain.Ok()
    ensures InsertAt(cs, link) == if |Flat(cs)| > 0 then link + 1 else 0
    ensures var cs' := cs[..InsertAt(cs, link)] + [chain];
            && AllOk(cs') && Flat(cs') == Flat(cs) + chain.Data()
            && DataPrefix(cs', if chain.off > 0 then InsertAt(cs, link) else link)
  {
    EmptyIffFirstEmpty(cs, link);
    var k := InsertAt(cs, link);
    InsertPrefix(cs, link, chain);
    hide Flat; hide DataPrefix;
    FlatTrim(cs, k);
    FlatConcat(cs[..k], [chain]);
    FlatOne(chain);
  }

  lemma {:induction false} InsertPrefix(cs: seq<Chain>, link: nat, chain: Chain)
    requires AllOk(cs) && DataPrefix(cs, link) && chain.Ok()
    ensures var k := InsertAt(cs, link);
            && AllEmpty(cs[k..]) && AllOk(cs[..k] + [chain])
            && DataPrefix(cs[..k] + [chain], if chain.off > 0 then k else link)
  {
  }

  /** struct evbuffer_ptr; `chain` is an index, |chains| for NULL. */
  datatype Ptr = Ptr(pos: int, chain: nat, posInChain: nat)

  // A pointer that designates the place its `pos` says.
  ghost predicate PtrOk(cs: seq<Chain>, p: Ptr) {
    PlaceOk(cs, p, p.pos)
  }

  // The chain and the index in it that the pointer holds are byte number `at`.
  ghost predicate PlaceOk(cs: seq<Chain>, p: Ptr, at: int) {
    && AllOk(cs) && p.chain <= |cs|
    && at == BytesBefore(cs, p.chain) + p.posInChain
    && p.posInChain <= (if p.chain < |cs| then cs[p.chain].off else 0)
  }

  // The first n cells of `out` are the n bytes of `all` from position p on.
  ghost predicate Copied(out: array<Byte>, all: seq<Byte>, p: nat, n: nat)
    requires n <= out.Length && p + n <= |all|
    reads out
  {
    forall i | 0 <= i < n :: out[i] == all[p + i]
  }

  // Chains that hold data behind chains that all hold data: still a data prefix.
  lemma {:induction false} AppendKeepsShape(cs: seq<Chain>, link: nat, ds: seq<Chain>, dlink: nat)
    requires AllOk(cs) && DataPrefix(cs, link)
    requires AllOk(ds) && DataPrefix(ds, dlink) && |Flat(ds)| > 0
    ensures var k := InsertAt(cs, link);
            && k == (if |Flat(cs)| > 0 then link + 1 else 0)
            && AllOk(cs[..k] + ds) && Flat(cs[..k] + ds) == Flat(cs) + Flat(ds)
            && DataPrefix(cs[..k] + ds, k + dlink)
  {
    hide Flat;
    EmptyIffFirstEmpty(cs, link);
    EmptyIffFirstEmpty(ds, dlink);
    var k := InsertAt(cs, link);
    FlatTrim(cs, k);
    FlatConcat(cs[..k], ds);
  }

  // One chain holding the first i chains and `n` bytes of the next one.
  lemma {:induction false} PullupFlat(cs: seq<Chain>, i: nat, n: nat, tmp: Chain)
    requires AllOk(cs) && i < |cs| && n <= cs[i].off
    requires tmp.Ok() && tmp.Data() == Flat(cs[..i]) + cs[i].Data()[..n]
    ensures AllOk([tmp] + cs[i..][0 := cs[i].DropFront(n)])
    ensures Flat([tmp] + cs[i..][0 := cs[i].DropFront(n)]) == Flat(cs)
  {
    var head, tail, d := Flat(cs[..i]), cs[i..][1..], cs[i].Data();
    var rest := cs[i..][0 := cs[i].DropFront(n)];
    FlatSplit(cs, i);
    FlatOne(tmp);
    FlatConcat([tmp], rest);
    assert rest[1..] == tail && cs[i..][0] == cs[i];
    FlatHead(rest);
    FlatHead(cs[i..]);
    hide Flat; hide Chain.DropFront; hide Chain.Data;
    assert d[..n] + d[n..] == d;
    Assoc(head + d[..n], d[n..], Flat(tail));
    Assoc(head, d[..n], d[n..]);
    Assoc(head, d, Flat(tail));
  }

  // The room in chains a..b-1.
  ghost function Room(cs: seq<Chain>, a: nat, b: nat): (n: nat)
    requires AllOk(cs) && b <= |cs|
    decreases b
  {
    if a >= b then 0 else Room(cs, a, b - 1) + cs[b - 1].SpaceLen()
  }

  lemma {:induction false} RoomSame(cs: seq<Chain>, ds: seq<Chain>, a: nat, b: nat)
    requires AllOk(cs) && AllOk(ds) && b <= |cs| && b <= |ds|
    requires forall i | a <= i < b :: cs[i] == ds[i]
    ensures Room(cs, a, b) == Room(ds, a, b)
    decreases b
  {
    if a < b {
      RoomSame(cs, ds, a, b - 1);
    }
  }

  /** Chains f..f+m-1 exist, each has room, and together they have `want`. */
  ghost predicate Ready(cs: seq<Chain>, f: nat, m: nat, want: nat) {
    && AllOk(cs) && f + m <= |cs|
    && (forall i | f <= i < f + m :: cs[i].SpaceLen() > 0)
    && Room(cs, f, f + m) >= want
  }

  // The link of the first chain with room behind its data.
  function FirstWithSpace(cs: seq<Chain>, link: nat): (f: nat)
    requires AllOk(cs)
  {
    if link < |cs| && cs[link].SpaceLen() == 0 then link + 1 else link
  }

  // Walking from `link` up to chain i met `used` chains with room, `avail` in all.
  ghost predicate Probed(cs: seq<Chain>, link: nat, i: nat, used: nat, avail: nat) {
    && AllOk(cs) && link < i <= |cs|
    && FirstWithSpace(cs, link) + used == i
    && Ready(cs, FirstWithSpace(cs, link), used, avail)
    && avail == Room(cs, FirstWithSpace(cs, link), i)
    && cs[link].SpaceLen() <= avail
  }

  lemma {:induction false} ProbeFirst(cs: seq<Chain>, link: nat)
    requires AllOk(cs) && link < |cs|
    ensures Probed(cs, link, link + 1, if cs[link].SpaceLen() > 0 then 1 else 0, cs[link].SpaceLen())
  {
    assert Room(cs, link, link + 1) == Room(cs, link, link) + cs[link].SpaceLen();
  }

  lemma {:induction false} ProbeNext(cs: seq<Chain>, link: nat, i: nat, used: nat, avail: nat)
    requires Probed(cs, link, i, used, avail) && i < |cs| && cs[i].off == 0
    ensures Probed(cs[i := cs[i].(misalign := 0)], link, i + 1, used + 1, avail + |cs[i].buffer|)
  {
    var ds := cs[i := cs[i].(misalign := 0)];
    RoomSame(cs, ds, FirstWithSpace(cs, link), i);
  }

  lemma {:induction false} ReadyMore(cs: seq<Chain>, link: nat, i: nat, used: nat, avail: nat, c: Chain)
    requires Probed(cs, link, i, used, avail) && i == |cs| && c.Ok() && c.SpaceLen() > 0
    ensures FirstWithSpace(cs + [c], link) == FirstWithSpace(cs, link)
    ensures Ready(cs + [c], FirstWithSpace(cs, link), used + 1, avail + c.SpaceLen())
  {
    RoomSame(cs, cs + [c], FirstWithSpace(cs, link), i);
  }

  // The designated chain and one new chain behind it.
  lemma {:induction false} ReadyTwo(cs: seq<Chain>, link: nat)
    requires AllOk(cs) && link + 2 == |cs| && cs[link + 1].SpaceLen() > 0
    ensures Ready(cs, FirstWithSpace(cs, link), if cs[link].SpaceLen() > 0 then 2
              else 1, cs[link].SpaceLen() + cs[link + 1].SpaceLen())
  {
    ProbeFirst(cs[..link + 1], link);
    ReadyMore(cs[..link + 1], link, link + 1, if cs[link].SpaceLen() > 0 then 1
        else 0, cs[link].SpaceLen(), cs[link + 1]);
    assert cs[..link + 1] + [cs[link + 1]] == cs;
  }

  // The first chain has the bytes, or the room for them, or a new one can be had.
  predicate PullsUp(c: Chain, size: nat, mallocOk: bool) {
    c.off >= size || |c.buffer| - c.misalign >= size || (mallocOk && size <= CHAIN_MAX - CHAIN_SIZE)
  }

  // More bytes go into this chain, as it is or realigned.
  predicate Takes(c: Option<Chain>, n: nat)
    requires c.Some? ==> c.value.Ok()
  {
    c.Some? && (c.value.SpaceLen() >= n || c.value.ShouldRealign(n))
  }

  /**
    When evbuffer_remove_buffer loses nothing, as its caller could tell beforehand: the k
    whole chains are handed over, and what is left of `want` fits behind the last of them,
    or behind the data of dst, or a new chain can be had for it.
  */
  ghost predicate CanMove(src: seq<Chain>, k: nat, tail: Option<Chain>, dstLen: nat, want: nat, mallocOk: bool)
    requires AllOk(src) && k <= |src| && (tail.Some? ==> tail.value.Ok())
  {
    var rest := want - BytesBefore(src, k);
    || rest <= 0
    || (dstLen + want <= SIZE_MAX
        && (Takes(if k == 0 then tail else Some(src[k - 1]), rest) || (mallocOk && rest <= CHAIN_MAX - CHAIN_SIZE)))
  }

  lemma MovableIs(
    src: seq<Chain>, k: nat, tail: Option<Chain>, dstLen: nat, want: nat, mallocOk: bool, next: Option<Chain>)
    requires AllOk(src) && k <= |src| && (tail.Some? ==> tail.value.Ok()) && (next.Some? ==> next.value.Ok())
    requires next == if k == 0 then tail else Some(src[k - 1])
    ensures var rest := want - BytesBefore(src, k);
            rest >= 0 ==>
              (CanMove(src, k, tail, dstLen, want, mallocOk) <==>
                || rest == 0
                || (dstLen + want <= SIZE_MAX && (Takes(next, rest) || (mallocOk && rest <= CHAIN_MAX - CHAIN_SIZE))))
  {
  }

  lemma MemoryMoves(src: seq<Chain>, k: nat, tail: Option<Chain>, dstLen: nat, want: nat, mallocOk: bool)
    requires AllOk(src) && k <= |src| && (tail.Some? ==> tail.value.Ok())
    ensures mallocOk && dstLen + want <= SIZE_MAX && want <= CHAIN_MAX - CHAIN_SIZE ==>
              CanMove(src, k, tail, dstLen, want, mallocOk)
  {
  }

  // The first `want` bytes in two goes.
  lemma TwoParts(d: seq<Byte>, all: seq<Byte>, n: nat, want: nat)
    requires n <= want <= |all|
    ensures d + all[..n] + all[n..][..want - n] == d + all[..want] && all[n..][want - n..] == all[want..]
  {
    Assoc(d, all[..n], all[n..][..want - n]);
    assert all[..n] + all[n..][..want - n] == all[..want];
  }

  // Chain k is the one that byte number `want` is in.
  ghost predicate Holding(src: seq<Chain>, k: nat, want: nat)
    requires AllOk(src)
  {
    k < |src| && BytesBefore(src, k) <= want < BytesBefore(src, k) + src[k].off
  }

  lemma {:induction false} BytesBeforeGrows(cs: seq<Chain>, k: nat, l: nat)
    requires AllOk(cs) && k < l <= |cs|
    ensures BytesBefore(cs, k) + cs[k].off <= BytesBefore(cs, l)
    decreases l
  {
    BytesBeforeNext(cs, l - 1);
    if k < l - 1 {
      BytesBeforeGrows(cs, k, l - 1);
    }
  }

  lemma {:induction false} OneHolds(src: seq<Chain>, k: nat, l: nat, want: nat)
    requires AllOk(src) && Holding(src, k, want) && Holding(src, l, want)
    ensures k == l
  {
    if k < l {
      BytesBeforeGrows(src, k, l);
    } else if l < k {
      BytesBeforeGrows(src, l, k);
    }
  }

  lemma {:induction false} SomeHolds(src: seq<Chain>, n: nat, want: nat) returns (k: nat)
    requires AllOk(src) && n <= |src| && want < BytesBefore(src, n)
    ensures Holding(src, k, want)
    decreases n
  {
    BytesBeforeEnd(src);
    BytesBeforeNext(src, n - 1);
    k := n - 1;
    if want < BytesBefore(src, n - 1) {
      k := SomeHolds(src, n - 1, want);
    }
  }

  class Evbuffer {
    var chains: seq<Chain>
    var last: int
    var lastWithData: nat
    var totalLen: nat
    var freezeStart: bool
    var freezeEnd: bool

    ghost predicate Valid()
      reads this
    {
      && AllOk(chains)
      && last == |chains| - 1
      && totalLen == |Flat(chains)|
      && DataPrefix(chains, lastWithData)
    }

    // What the buffer is for: the queue of bytes it holds.
    ghost function Contents(): (s: seq<Byte>)
      reads this
      requires AllOk(chains)
    {
      Flat(chains)
    }

    constructor ()
      ensures Valid() && Contents() == [] && |chains| == 0
      ensures !freezeStart && !freezeEnd
    {
      chains, last, lastWithData, totalLen := [], -1, 0, 0;
      freezeStart, freezeEnd := false, false;
    }

    /**
      evbuffer_free_trailing_empty_chains: cut off the empty chains at the end and
      return the link where the next chain goes. `last` is left for the caller.
    */
    method FreeTrailingEmptyChains() returns (link: nat)
      requires Valid()
      modifies this`chains
      ensures link <= |old(chains)| && chains == old(chains)[..link]
      ensures link == if totalLen > 0 then lastWithData + 1 else 0
      ensures Contents() == old(Contents())
    {
      EmptyIffFirstEmpty(chains, lastWithData);
      link := lastWithData;
      while link < |chains| && chains[link].off != 0
        invariant lastWithData <= link <= |chains|
        invariant link <= if totalLen > 0 then lastWithData + 1 else 0
      {
        link := link + 1;
      }
      // evbuffer_chains_all_empty
      assert AllEmpty(chains[link..]);
      FlatTrim(chains, link);
      if link < |chains| {
        chains := chains[..link];
      } else {
        assert chains[..link] == chains;
      }
    }

    /** evbuffer_chain_insert */
    method ChainInsert(chain: Chain)
      requires Valid() && chain.Ok()
      modifies this
      ensures Valid() && Contents() == old(Contents()) + chain.Data()
      ensures last >= 0 && chains[last] == chain && (|old(chains)| == 0 ==> last == 0)
      ensures lastWithData == if chain.off > 0 then last else old(lastWithData)
      ensures freezeStart == old(freezeStart) && freezeEnd == old(freezeEnd)
    {
      InsertKeepsShape(chains, lastWithData, chain);
      if lastWithData == |chains| {
        // there are no chains at all
        assert lastWithData == 0 && chains == [];
        chains, last := [chain], 0;
      } else {
        var link := FreeTrailingEmptyChains();
        chains := chains + [chain];
        if chain.off != 0 {
          lastWithData := link;
        }
        last := link;
      }
      totalLen := totalLen + chain.off;
    }

    // memcpy into the chain designated by last_with_datap, which is now `c`.
    method GrowLastWithData(c: Chain, more: seq<Byte>)
      requires Valid() && lastWithData < |chains|
      requires c.Ok() && c.Data() == chains[lastWithData].Data() + more
      modifies this`chains, this`totalLen
      ensures Valid() && Contents() == old(Contents()) + more
    {
      FlatGrow(chains, lastWithData, c, more);
      chains := chains[lastWithData := c];
      totalLen := totalLen + |more|;
    }

    /** The part of evbuffer_add that needs another chain. */
    method AddSpilling(data: seq<Byte>, mallocOk: bool) returns (r: int)
      requires Valid() && lastWithData < |chains|
      requires chains[lastWithData].SpaceLen() < |data|
      modifies this
      ensures Valid() && r == if mallocOk && |data| <= CHAIN_MAX - CHAIN_SIZE then 0 else -1
      ensures r == 0 ==> Contents() == old(Contents()) + data
      ensures r == -1 ==> Contents() == old(Contents())
      // the new chain is at least twice as large, up to a size
      ensures r == 0 ==>
                var size := |old(chains)[old(lastWithData)].buffer|;
                && 0 <= last < |chains| && |chains[last].buffer| >= |data|
                && |chains[last].buffer| >= if size <= MAX_AUTO_SIZE / 2 then 2 * size else size
      ensures freezeStart == old(freezeStart) && freezeEnd == old(freezeEnd)
    {
      var chain := chains[lastWithData];
      var remain := chain.SpaceLen();
      var toAlloc := |chain.buffer|;
      if toAlloc <= MAX_AUTO_SIZE / 2 {
        toAlloc := toAlloc * 2;
      }
      if |data| > toAlloc {
        toAlloc := |data|;
      }
      var tmp := ChainNew(toAlloc, mallocOk);
      if tmp.None? {
        return -1;
      }
      if remain > 0 {
        GrowLastWithData(chain.Append(data[..remain]), data[..remain]);
      }
      assert old(Contents()) + data == old(Contents()) + data[..remain] + data[remain..] by {
        assert data == data[..remain] + data[remain..];
        Assoc(old(Contents()), data[..remain], data[remain..]);
      }
      ChainInsert(tmp.value.Append(data[remain..]));
      r := 0;
    }

    // The chain designated by last_with_datap, if there is one.
    function Tail(): (c: Option<Chain>)
      reads this
    {
      if lastWithData < |chains| then Some(chains[lastWithData]) else None
    }

    // evbuffer_add can take this much without another chain.
    predicate FitsInPlace(n: nat)
      reads this
      requires Valid()
    {
      Takes(Tail(), n)
    }

    /** evbuffer_add */
    method Add(data: seq<Byte>, mallocOk: bool) returns (r: int)
      requires Valid()
      modifies this
      ensures Valid() && (r == 0 || r == -1)
      ensures r == 0 ==> Contents() == old(Contents()) + data
      ensures r == -1 ==> Contents() == old(Contents())
      ensures freezeStart == old(freezeStart) && freezeEnd == old(freezeEnd)
      ensures r == 0 <==>
              && !freezeEnd && old(totalLen) + |data| <= SIZE_MAX
              && (old(FitsInPlace(|data|)) || (mallocOk && |data| <= CHAIN_MAX - CHAIN_SIZE))
    {
      if freezeEnd {
        return -1;
      }
      if |data| > SIZE_MAX - totalLen {
        return -1;
      }
      // *last_with_datap, or else last: both are NULL when there are no chains
      if lastWithData == |chains| {
        assert last == -1;
        var first := ChainNew(|data|, mallocOk);
        if first.None? {
          return -1;
        }
        ChainInsert(first.value);
      }
      var chain := chains[lastWithData];
      if chain.SpaceLen() >= |data| {
        GrowLastWithData(chain.Append(data), data);
        r := 0;
      } else if chain.ShouldRealign(|data|) {
        GrowLastWithData(chain.Align().Append(data), data);
        r := 0;
      } else {
        r := AddSpilling(data, mallocOk);
      }
    }

    /** The part of evbuffer_prepend that needs another chain in front. */
    method PrependChain(data: seq<Byte>, mallocOk: bool) returns (r: int)
      requires Valid() && totalLen > 0 && |data| > 0
      modifies this
      ensures Valid() && r == if mallocOk && |data| <= CHAIN_MAX - CHAIN_SIZE then 0 else -1
      ensures r == 0 ==> Contents() == data + old(Contents())
      ensures r == -1 ==> Contents() == old(Contents())
      ensures freezeStart == old(freezeStart) && freezeEnd == old(freezeEnd)
    {
      EmptyIffFirstEmpty(chains, lastWithData);
      var tmp := ChainNew(|data|, mallocOk);
      if tmp.None? {
        return -1;
      }
      var c := tmp.value.(misalign := |tmp.value.buffer|).PushFront(data);
      FlatOne(c);
      FlatConcat([c], chains);
      chains := [c] + chains;
      // either last_with_datap was &first and becomes &tmp->next, or it keeps
      // its place in a chain that now has one more chain before it
      lastWithData := lastWithData + 1;
      last := last + 1;
      totalLen := totalLen + |data|;
      r := 0;
    }

    // The gap evbuffer_prepend can fill before it needs another chain.
    function FrontGap(): nat
      reads this
    {
      if |chains| == 0 then 0
      else if chains[0].off == 0 then |chains[0].buffer| else chains[0].misalign
    }

    // memcpy into the front of the first chain, which is now `c`.
    method GrowFirst(c: Chain, data: seq<Byte>)
      requires Valid() && |chains| > 0
      requires c.Ok() && c.Data() == data + chains[0].Data()
      modifies this`chains, this`totalLen
      ensures Valid() && Contents() == data + old(Contents()) && chains == old(chains)[0 := c]
    {
      FlatUpdate(chains, 0, c);
      FlatAt(chains, 0);
      Assoc(data, chains[0].Data(), Flat(chains[1..]));
      assert Flat(chains[..0]) == [];
      chains := chains[0 := c];
      totalLen := totalLen + |data|;
    }

    /** The part of evbuffer_prepend that has a first chain to work with. */
    method PrependInto(data: seq<Byte>, mallocOk: bool) returns (r: int)
      requires Valid() && |chains| > 0
      modifies this
      ensures Valid() && (r == 0 || r == -1)
      ensures r == 0 ==> Contents() == data + old(Contents())
      ensures r == -1 ==> old(FrontGap()) < |data| && Contents() == data[|data| - old(FrontGap())..] + old(Contents())
      ensures r == 0 <==> old(FrontGap()) >= |data| || (mallocOk && |data| - old(FrontGap()) <= CHAIN_MAX - CHAIN_SIZE)
      ensures freezeStart == old(freezeStart) && freezeEnd == old(freezeEnd)
    {
      hide Flat; hide DataPrefix; hide Chain.PushFront; hide Chain.Data;
      var chain := chains[0];
      if chain.off == 0 {
        chain := chain.(misalign := |chain.buffer|);
      }
      if chain.misalign >= |data| {
        GrowFirst(chain.PushFront(data), data);
        return 0;
      }
      var rest := |data| - chain.misalign;
      assert data[..rest] + (data[rest..] + Contents()) == data + Contents() by {
        assert data == data[..rest] + data[rest..];
        Assoc(data[..rest], data[rest..], Contents());
      }
      if chain.misalign != 0 {
        GrowFirst(chain.PushFront(data[rest..]), data[rest..]);
      } else {
        assert data[rest..] + Contents() == Contents();
      }
      EmptyIffFirstEmpty(chains, lastWithData);
      r := PrependChain(data[..rest], mallocOk);
    }

    /**
      evbuffer_prepend. When the second allocation fails the tail of the data that
      fitted in the first chain has already been stored.
    */
    method Prepend(data: seq<Byte>, mallocOk: bool) returns (r: int)
      requires Valid()
      modifies this
      ensures Valid() && (r == 0 || r == -1)
      ensures r == 0 ==> Contents() == data + old(Contents())
      ensures r == -1 && (freezeStart || old(totalLen) + |data| > SIZE_MAX) ==> Contents() == old(Contents())
      ensures r == -1 && !(freezeStart || old(totalLen) + |data| > SIZE_MAX) ==>
                old(FrontGap()) <= |data| && Contents() == data[|data| - old(FrontGap())..] + old(Contents())
      ensures freezeStart == old(freezeStart) && freezeEnd == old(freezeEnd)
      ensures r == 0 <==>
              && !freezeStart && old(totalLen) + |data| <= SIZE_MAX
              && ((|old(chains)| > 0 && old(FrontGap()) >= |data|)
                  || (mallocOk && |data| - old(FrontGap()) <= CHAIN_MAX - CHAIN_SIZE))
    {
      if freezeStart {
        return -1;
      }
      if |data| > SIZE_MAX - totalLen {
        return -1;
      }
      if |chains| == 0 {
        var first := ChainNew(|data|, mallocOk);
        if first.None? {
          return -1;
        }
        ChainInsert(first.value);
        assert FrontGap() >= |data|;
      }
      r := PrependInto(data, mallocOk);
    }

    // ZERO_CHAIN
    method ZeroChain()
      modifies this`chains, this`last, this`lastWithData, this`totalLen
      ensures Valid() && Contents() == []
    {
      chains, last, lastWithData, totalLen := [], -1, 0, 0;
    }

    // Unlink the first chain, whose bytes all go, and free it.
    method PopFirst()
      requires AllOk(chains) && DataPrefix(chains, lastWithData) && last == |chains| - 1
      requires |chains| > 0 && chains[0].off < |Flat(chains)|
      modifies this`chains, this`last, this`lastWithData
      ensures chains == old(chains)[1..] && AllOk(chains) && last == |chains| - 1
      ensures DataPrefix(chains, lastWithData)
      ensures Contents() == old(Contents())[old(chains[0].off)..]
    {
      EmptyIffFirstEmpty(chains, lastWithData);
      if lastWithData == 0 {
        // only the last chain with data is designated through &first
        FlatEmpty(chains[1..]);
        assert false;
      }
      // &chain->next == last_with_datap becomes &first; any later link keeps its
      // place and has one chain fewer in front of it
      lastWithData := lastWithData - 1;
      last := last - 1;
      chains := chains[1..];
    }

    // Consume `n` bytes of the first chain.
    method ShrinkFirst(n: nat)
      requires Valid() && |chains| > 0 && (n < chains[0].off || n == 0)
      modifies this`chains, this`totalLen
      ensures Valid() && Contents() == old(Contents())[n..]
      ensures chains == old(chains)[0 := old(chains[0]).DropFront(n)]
    {
      FlatUpdate(chains, 0, chains[0].DropFront(n));
      chains := chains[0 := chains[0].DropFront(n)];
      totalLen := totalLen - n;
    }

    /** evbuffer_drain */
    method Drain(len: nat) returns (r: int)
      requires Valid()
      modifies this
      ensures Valid() && r == if old(totalLen) > 0 && freezeStart then -1 else 0
      ensures Contents() == if r == -1 then old(Contents()) else if len >= old(totalLen) then []
                else old(Contents())[len..]
      ensures freezeStart == old(freezeStart) && freezeEnd == old(freezeEnd)
    {
      hide Flat; hide DataPrefix;
      if totalLen == 0 {
        return 0;
      }
      if freezeStart {
        return -1;
      }
      if len >= totalLen {
        ZeroChain();
        return 0;
      }
      DrainPart(len);
      r := 0;
    }

    // The part of evbuffer_drain that leaves something.
    method DrainPart(len: nat)
      requires Valid() && len < totalLen
      modifies this
      ensures Valid() && Contents() == old(Contents())[len..]
      ensures freezeStart == old(freezeStart) && freezeEnd == old(freezeEnd)
    {
      hide Flat; hide DataPrefix;
      EmptyIffFirstEmpty(chains, lastWithData);
      var remaining := len;
      ghost var all := Contents();
      while remaining >= chains[0].off
        invariant AllOk(chains) && DataPrefix(chains, lastWithData) && last == |chains| - 1
        invariant 0 <= remaining <= len && Flat(chains) == all[len - remaining..]
        invariant |chains| > 0
        invariant freezeStart == old(freezeStart) && freezeEnd == old(freezeEnd)
        invariant totalLen == |all|
        decreases |chains|
      {
        remaining := remaining - chains[0].off;
        PopFirst();
        EmptyIffFirstEmpty(chains, lastWithData);
      }
      // the assertion at the end of the walk: the chain exists and holds enough
      assert |chains| > 0 && remaining <= chains[0].off;
      totalLen := totalLen - (len - remaining);
      ShrinkFirst(remaining);
      assert all[len - remaining..][remaining..] == all[len..];
    }

    // memcpy from inside chain `c` to out[at..]; `out` collects the `want` bytes from `p` on
    method CopyChunk(c: nat, from: nat, n: nat, out: array<Byte>, at: nat, ghost p: nat, ghost want: nat)
      requires Valid() && c < |chains| && from + n <= chains[c].off
      requires p + want <= |Contents()| && at + n <= want <= out.Length
      requires BytesBefore(chains, c) + from == p + at && Copied(out, Contents(), p, at)
      modifies out
      ensures Copied(out, Contents(), p, at + n)
      ensures forall i | want <= i < out.Length :: out[i] == old(out[i])
    {
      FlatSlice(chains, c, from, from + n);
      ghost var all := Contents();
      var src := chains[c].Data()[from..from + n];
      assert src == all[p + at..p + at + n];
      forall i | 0 <= i < n {
        out[at + i] := src[i];
      }
      forall i | 0 <= i < at + n ensures out[i] == all[p + i] {
        if i >= at {
          assert out[at + (i - at)] == src[i - at];
        }
      }
    }

    /** evbuffer_copyout_from: the count comes back as an ev_ssize_t, negative if it is above SSIZE_MAX. */
    method CopyoutFrom(pos: Option<Ptr>, out: array<Byte>, want: nat) returns (n: int)
      requires Valid() && want <= out.Length
      requires pos.Some? ==> PtrOk(chains, pos.value)
      modifies out
      ensures var p := if pos.Some? then pos.value.pos else 0;
              var avail := if 0 <= p && want < |Contents()| - p then want else |Contents()| - p;
              0 <= p <= |Contents()| &&
              if (pos.Some? && want > SSIZE_MAX - p) || (freezeStart && avail > 0) then
                n == -1 && forall i | 0 <= i < out.Length :: out[i] == old(out[i])
              else
                && n == ToInt32(avail) && Copied(out, Contents(), p, avail)
                && forall i | avail <= i < out.Length :: out[i] == old(out[i])
    {
      var chain: nat, posInChain: nat, datlen: nat := 0, 0, want;
      BytesBeforeEnd(chains);
      hide Flat; hide DataPrefix; hide ToInt32; hide BytesBefore;
      SmallInt(0);
      if pos.Some? {
        PtrInRange(pos.value);
        if want > SSIZE_MAX - pos.value.pos {
          return -1;
        }
        chain, posInChain := pos.value.chain, pos.value.posInChain;
        if datlen + pos.value.pos > totalLen {
          datlen := totalLen - pos.value.pos;
        }
      } else {
        if datlen > totalLen {
          datlen := totalLen;
        }
      }
      if datlen == 0 {
        return 0;
      }
      if freezeStart {
        return -1;
      }
      n := ToInt32(datlen);
      CopyLoop(chain, posInChain, out, datlen, BytesBefore(chains, chain) + posInChain);
    }

    lemma {:induction false} PtrInRange(p: Ptr)
      requires Valid() && PtrOk(chains, p)
      ensures 0 <= p.pos <= totalLen
    {
      BytesBeforeEnd(chains);
      if p.chain < |chains| {
        BytesBeforeNext(chains, p.chain);
      }
    }

    // The copying part
    method CopyLoop(c0: nat, q0: nat, out: array<Byte>, want: nat, ghost p: nat)
      requires Valid() && want <= out.Length
      requires c0 <= |chains| && q0 <= (if c0 < |chains| then chains[c0].off else 0)
      requires p == BytesBefore(chains, c0) + q0 && p + want <= |Contents()|
      modifies out
      ensures Copied(out, Contents(), p, want)
      ensures forall i | want <= i < out.Length :: out[i] == old(out[i])
    {
      var chain: nat, posInChain: nat, datlen: nat := c0, q0, want;
      BytesBeforeEnd(chains);
      while datlen > 0 && datlen >= chains[chain].off - posInChain
        invariant 0 <= datlen <= want
        invariant chain <= |chains| && posInChain <= (if chain < |chains| then chains[chain].off else 0)
        // EVUTIL_ASSERT(chain || datlen == 0)
        invariant chain < |chains| || datlen == 0
        invariant BytesBefore(chains, chain) + posInChain == p + want - datlen
        invariant Copied(out, Contents(), p, want - datlen)
        invariant forall i | want <= i < out.Length :: out[i] == old(out[i])
        decreases |chains| - chain
      {
        var copylen := chains[chain].off - posInChain;
        CopyChunk(chain, posInChain, copylen, out, want - datlen, p, want);
        BytesBeforeNext(chains, chain);
        datlen := datlen - copylen;
        chain, posInChain := chain + 1, 0;
      }
      if datlen > 0 {
        assert datlen + posInChain <= chains[chain].off;
        CopyChunk(chain, posInChain, datlen, out, want - datlen, p, want);
      }
    }

    /** evbuffer_remove: the count comes back as an int, and bytes are drained only if it is positive. */
    method Remove(out: array<Byte>, datlen: nat) returns (r: int)
      requires Valid() && datlen <= out.Length
      modifies this, out
      ensures Valid() && freezeStart == old(freezeStart) && freezeEnd == old(freezeEnd)
      ensures var n := if datlen < |old(Contents())| then datlen else |old(Contents())|;
              if freezeStart && n > 0 then
                r == -1 && Contents() == old(Contents())
              else
                && r == ToInt32(n) && Copied(out, old(Contents()), 0, n)
                && r <= n && Contents() == if r > 0 then old(Contents())[r..] else old(Contents())
      ensures forall i | 0 <= i < out.Length && (i >= datlen || i >= |old(Contents())| || freezeStart) ::
                out[i] == old(out[i])
    {
      hide Flat; hide DataPrefix; hide ToInt32; hide Copied;
      ghost var avail := if datlen < |Contents()| then datlen else |Contents()|;
      SmallInt(avail);
      var n := CopyoutFrom(None, out, datlen);
      SmallInt(n);
      if n > 0 {
        var d := Drain(n);
        if d < 0 {
          n := -1;
        }
      }
      r := ToInt32(n);
    }

    // COPY_CHAIN or APPEND_CHAIN: take over a list of chains and its length.
    method TakeChains(cs: seq<Chain>, csLink: nat, csLen: nat)
      requires Valid()
      requires AllOk(cs) && DataPrefix(cs, csLink) && csLen == |Flat(cs)| > 0
      modifies this`chains, this`last, this`lastWithData, this`totalLen
      ensures Valid() && Contents() == old(Contents()) + Flat(cs)
    {
      hide Flat;
      AppendKeepsShape(chains, lastWithData, cs, csLink);
      if totalLen == 0 {
        // whatever empty chains there were are freed
        assert chains[..0] + cs == cs;
        chains, lastWithData, last, totalLen := cs, csLink, |cs| - 1, csLen;
      } else {
        var link := FreeTrailingEmptyChains();
        chains := chains + cs;
        lastWithData, last := link + csLink, link + |cs| - 1;
        totalLen := totalLen + csLen;
      }
    }

    /** evbuffer_add_buffer, called on outbuf */
    method AddBuffer(inbuf: Evbuffer) returns (r: int)
      requires Valid() && inbuf.Valid()
      modifies this, inbuf
      ensures Valid() && inbuf.Valid()
      ensures freezeStart == old(freezeStart) && freezeEnd == old(freezeEnd)
      ensures inbuf.freezeStart == old(inbuf.freezeStart) && inbuf.freezeEnd == old(inbuf.freezeEnd)
      ensures if inbuf == this || old(inbuf.totalLen) == 0 then
                r == 0 && Contents() == old(Contents()) && inbuf.Contents() == old(inbuf.Contents())
              else if freezeEnd || inbuf.freezeStart then
                r == -1 && Contents() == old(Contents()) && inbuf.Contents() == old(inbuf.Contents())
              else
                r == 0 && Contents() == old(Contents()) + old(inbuf.Contents()) && inbuf.Contents() == []
    {
      if inbuf.totalLen == 0 || inbuf == this {
        return 0;
      }
      if freezeEnd || inbuf.freezeStart {
        return -1;
      }
      TakeChains(inbuf.chains, inbuf.lastWithData, inbuf.totalLen);
      inbuf.ZeroChain();
      r := 0;
    }

    // advance_last_with_data, where every chain now holds data
    method AdvanceLastWithData()
      requires lastWithData < |chains| && forall i | 0 <= i < |chains| :: chains[i].off > 0
      modifies this`lastWithData
      ensures lastWithData == |chains| - 1
    {
      while lastWithData + 1 < |chains| && chains[lastWithData + 1].off > 0
        invariant lastWithData < |chains|
      {
        lastWithData := lastWithData + 1;
      }
    }

    // Hang chains that all hold data behind the data of this buffer.
    method HangChains(cs: seq<Chain>, nread: nat)
      requires Valid() && |cs| > 0 && AllOk(cs) && forall i | 0 <= i < |cs| :: cs[i].off > 0
      requires nread == |Flat(cs)|
      modifies this`chains, this`last, this`lastWithData, this`totalLen
      ensures Valid() && Contents() == old(Contents()) + Flat(cs)
      ensures Tail() == Some(cs[|cs| - 1])
    {
      hide Flat;
      EmptyIffFirstEmpty(cs, |cs| - 1);
      EmptyIffFirstEmpty(chains, lastWithData);
      AppendKeepsShape(chains, lastWithData, cs, |cs| - 1);
      var link := FreeTrailingEmptyChains();
      chains := chains + cs;
      last := link + |cs| - 1;
      AdvanceLastWithData();
      totalLen := totalLen + nread;
    }

    // Unlink the first k chains, which are not all of the data.
    method UnlinkFirst(k: nat, nread: nat)
      requires Valid() && k <= lastWithData && nread == BytesBefore(chains, k)
      modifies this`chains, this`last, this`lastWithData, this`totalLen
      ensures Valid() && chains == old(chains)[k..]
      ensures nread <= |old(Contents())| && Contents() == old(Contents())[nread..]
    {
      FlatSplit(chains, k);
      // last_with_datap was &chain->next of the last unlinked chain and is &first
      // now, or it keeps its place behind k fewer chains
      lastWithData := lastWithData - k;
      last := last - k;
      chains := chains[k..];
      totalLen := totalLen - nread;
    }

    lemma {:induction false} AllDataByLink(k: nat)
      requires Valid() && k == lastWithData < |chains|
      ensures BytesBefore(chains, k) + chains[k].off == totalLen
    {
      FlatAt(chains, k);
      FlatEmpty(chains[k + 1..]);
    }

    // How many whole chains fit in `want` bytes, and how many bytes they hold.
    method WholeChains(want: nat) returns (k: nat, nread: nat)
      requires Valid() && want < totalLen
      ensures k <= lastWithData < |chains| && nread == BytesBefore(chains, k)
      ensures nread <= want < nread + chains[k].off
    {
      EmptyIffFirstEmpty(chains, lastWithData);
      k, nread := 0, 0;
      BytesBeforeEnd(chains);
      var datlen := want;
      while chains[k].off <= datlen
        invariant k <= lastWithData && nread == BytesBefore(chains, k) && datlen == want - nread >= 0
        decreases |chains| - k
      {
        if k == lastWithData {
          // EVUTIL_ASSERT(chain != *src->last_with_datap)
          AllDataByLink(k);
          assert false;
        }
        BytesBeforeNext(chains, k);
        nread := nread + chains[k].off;
        datlen := datlen - chains[k].off;
        k := k + 1;
      }
    }

    // Move the first k chains, which hold nread bytes, to dst.
    method MoveChains(dst: Evbuffer, k: nat, nread: nat)
      requires Valid() && dst.Valid() && dst != this
      requires k <= lastWithData < |chains| && nread == BytesBefore(chains, k) && totalLen > 0
      modifies this`chains, this`last, this`lastWithData, this`totalLen
      modifies dst`chains, dst`last, dst`lastWithData, dst`totalLen
      ensures Valid() && chains == old(chains)[k..]
      ensures nread <= |old(Contents())| && Contents() == old(Contents())[nread..]
      ensures dst.Valid() && dst.Contents() == old(dst.Contents()) + old(Contents())[..nread]
      ensures dst.Tail() == if k == 0 then old(dst.Tail()) else Some(old(chains)[k - 1])
    {
      FlatSplit(chains, k);
      if nread > 0 {
        dst.HangChains(chains[..k], nread);
        UnlinkFirst(k, nread);
      } else {
        assert k == 0 by {
          EmptyIffFirstEmpty(chains, lastWithData);
        }
        assert chains[0..] == chains;
      }
    }

    // Copy the first bytes of the first chain to dst and drop them here.
    method MoveHead(dst: Evbuffer, datlen: nat, mallocOk: bool) returns (ok: bool)
      requires Valid() && dst.Valid() && dst != this && |chains| > 0 && datlen < chains[0].off
      modifies this`chains, this`totalLen, dst
      ensures Valid() && datlen <= |old(Contents())| && Contents() == old(Contents())[datlen..]
      ensures dst.Valid() && dst.freezeStart == old(dst.freezeStart) && dst.freezeEnd == old(dst.freezeEnd)
      ensures ok ==> dst.Contents() == old(dst.Contents()) + old(Contents())[..datlen]
      ensures !ok ==> dst.Contents() == old(dst.Contents())
      ensures ok <==>
              && !dst.freezeEnd && old(dst.totalLen) + datlen <= SIZE_MAX
              && (old(dst.FitsInPlace(datlen)) || (mallocOk && datlen <= CHAIN_MAX - CHAIN_SIZE))
    {
      FlatAt(chains, 0);
      var head := chains[0].Data()[..datlen];
      assert head == Contents()[..datlen];
      var added := dst.Add(head, mallocOk);
      ok := added == 0;
      ShrinkFirst(datlen);
    }

    // The first k chains go over whole, and then part of the next one.
    method MoveFront(dst: Evbuffer, k: nat, nread: nat, want: nat, mallocOk: bool) returns (ok: bool)
      requires Valid() && dst.Valid() && dst != this && !dst.freezeEnd && totalLen > 0
      requires k <= lastWithData < |chains| && nread == BytesBefore(chains, k) <= want < nread + chains[k].off
      modifies this, dst
      ensures Valid() && want <= |old(Contents())| && Contents() == old(Contents())[want..]
      ensures dst.Valid() && dst.Contents() == old(dst.Contents()) + old(Contents())[..if ok then want else nread]
      ensures freezeStart == old(freezeStart) && freezeEnd == old(freezeEnd)
      ensures dst.freezeStart == old(dst.freezeStart) && dst.freezeEnd == old(dst.freezeEnd)
      ensures old(dst.Tail()).Some? ==> old(dst.Tail()).value.Ok()
      ensures var next := if k == 0 then old(dst.Tail()) else Some(old(chains)[k - 1]);
              && (next.Some? ==> next.value.Ok())
              && (ok <==>
                  && old(dst.totalLen) + want <= SIZE_MAX
                  && (Takes(next, want - nread) || (mallocOk && want - nread <= CHAIN_MAX - CHAIN_SIZE)))
    {
      hide Flat; hide DataPrefix; hide BytesBefore; hide Takes;
      ghost var all, d := Contents(), dst.Contents();
      MoveChains(dst, k, nread);
      ok := MoveHead(dst, want - nread, mallocOk);
      TwoParts(d, all, nread, want);
    }

    // The part of evbuffer_remove_buffer that leaves data behind; k chains go over whole.
    method RemovePart(dst: Evbuffer, want: nat, mallocOk: bool) returns (ghost lost: nat, ghost k: nat)
      requires Valid() && dst.Valid() && dst != this && want < totalLen && !dst.freezeEnd
      modifies this, dst
      ensures Valid() && Contents() == old(Contents())[want..]
      ensures Holding(old(chains), k, want)
      ensures dst.Valid() && lost <= want && dst.Contents() == old(dst.Contents()) + old(Contents())[..want - lost]
      ensures lost == 0 <==> CanMove(old(chains), k, old(dst.Tail()), old(dst.totalLen), want, mallocOk)
      ensures lost == 0 || lost == want - BytesBefore(old(chains), k)
      ensures freezeStart == old(freezeStart) && freezeEnd == old(freezeEnd)
      ensures dst.freezeStart == old(dst.freezeStart) && dst.freezeEnd == old(dst.freezeEnd)
    {
      hide Flat; hide DataPrefix; hide BytesBefore; hide Takes; hide CanMove;
      var whole, nread := WholeChains(want);
      k := whole;
      ghost var src0, tail0, len0 := chains, dst.Tail(), dst.totalLen;
      var ok := MoveFront(dst, whole, nread, want, mallocOk);
      MovableIs(src0, whole, tail0, len0, want, mallocOk, if whole == 0 then tail0 else Some(src0[whole - 1]));
      if ok {
        lost := 0;
      } else {
        lost := want - nread;
      }
    }

    /**
      evbuffer_remove_buffer, called on src. The result of the evbuffer_add that
      moves the last partial chain is ignored: when that one fails, `lost` bytes
      leave src without reaching dst.
    */
    method RemoveBuffer(dst: Evbuffer, want: nat, mallocOk: bool) returns (r: int, ghost lost: nat)
      requires Valid() && dst.Valid()
      modifies this, dst
      ensures Valid() && dst.Valid()
      ensures freezeStart == old(freezeStart) && freezeEnd == old(freezeEnd)
      ensures dst.freezeStart == old(dst.freezeStart) && dst.freezeEnd == old(dst.freezeEnd)
      ensures var n := if want < |old(Contents())| then want else |old(Contents())|;
              if want == 0 || dst == this then
                r == 0 && Contents() == old(Contents()) && dst.Contents() == old(dst.Contents())
              else if dst.freezeEnd || freezeStart then
                r == -1 && Contents() == old(Contents()) && dst.Contents() == old(dst.Contents())
              else
                && r == ToInt32(n) && Contents() == old(Contents())[n..]
                && lost <= n && dst.Contents() == old(dst.Contents()) + old(Contents())[..n - lost]
      ensures want == 0 || dst == this || dst.freezeEnd || freezeStart || want >= old(totalLen) ==> lost == 0
      ensures mallocOk && old(dst.totalLen) + old(totalLen) <= SIZE_MAX && old(totalLen) <= CHAIN_MAX - CHAIN_SIZE ==>
                lost == 0
      ensures 0 < want < old(totalLen) && dst != this && !dst.freezeEnd && !freezeStart ==>
                forall k: nat | Holding(old(chains), k, want) ::
                && (lost == 0 <==> CanMove(old(chains), k, old(dst.Tail()), old(dst.totalLen), want, mallocOk))
                && (lost == 0 || lost == want - BytesBefore(old(chains), k))
    {
      hide Flat; hide DataPrefix; hide BytesBefore; hide Takes; hide CanMove; hide ToInt32;
      lost := 0;
      EmptyIffFirstEmpty(chains, lastWithData);
      if want == 0 || dst == this {
        return 0, 0;
      }
      if dst.freezeEnd || freezeStart {
        return -1, 0;
      }
      if want >= totalLen {
        var n := totalLen;
        assert Contents()[..n] == Contents() && Contents()[n..] == [];
        var _ := dst.AddBuffer(this);
        return ToInt32(n), 0;
      }
      ghost var src, k := chains, 0;
      lost, k := RemovePart(dst, want, mallocOk);
      forall l: nat | Holding(src, l, want) ensures l == k {
        OneHolds(src, k, l, want);
      }
      MemoryMoves(src, k, old(dst.Tail()), old(dst.totalLen), want, mallocOk);
      r := ToInt32(want);
    }

    // Copy whole chains into tmp for as long as `size` bytes are not there yet.
    method PullWhole(tmp0: Chain, i0: nat, size: nat) returns (tmp: Chain, i: nat)
      requires Valid() && i0 <= |chains| && tmp0.Ok() && tmp0.Data() == Flat(chains[..i0])
      requires tmp0.off <= size <= tmp0.off + tmp0.SpaceLen() && size <= totalLen
      ensures i0 <= i <= |chains| && tmp.Ok() && tmp.Data() == Flat(chains[..i])
      ensures tmp.off <= size <= tmp.off + tmp.SpaceLen()
      ensures if i < |chains| then size - tmp.off < chains[i].off else tmp.off == size
    {
      hide DataPrefix; hide Chain.Append; hide Flat; hide Chain.Data;
      tmp, i := tmp0, i0;
      while i < |chains| && size - tmp.off >= chains[i].off
        invariant i0 <= i <= |chains| && tmp.Ok() && tmp.Data() == Flat(chains[..i])
        invariant tmp.off <= size <= tmp.off + tmp.SpaceLen()
      {
        FlatSnoc(chains, i);
        tmp := tmp.Append(chains[i].Data());
        i := i + 1;
      }
      if i == |chains| {
        assert chains[..i] == chains;
      }
    }

    // tmp takes the place of the first i chains and of the bytes it lacks of the next.
    method InstallFirst(tmp0: Chain, i: nat, size: nat)
      requires Valid() && 0 < i <= |chains| && tmp0.Ok() && tmp0.Data() == Flat(chains[..i])
      requires tmp0.off <= size <= tmp0.off + tmp0.SpaceLen() && 0 < size
      requires if i < |chains| then size - tmp0.off < chains[i].off else tmp0.off == size
      modifies this`chains, this`last, this`lastWithData
      ensures Valid() && Contents() == old(Contents()) && |chains| > 0 && chains[0].off == size
    {
      var tmp := tmp0;
      EmptyIffFirstEmpty(chains, lastWithData);
      var removedLastWithData := lastWithData < i;
      var removedLastWithDatap := lastWithData == i;
      if i < |chains| {
        var n := size - tmp.off;
        tmp := tmp.Append(chains[i].Data()[..n]);
        PullupFlat(chains, i, n, tmp);
        last := last - i + 1;
        chains := [tmp] + chains[i..][0 := chains[i].DropFront(n)];
      } else {
        assert chains[..i] == chains;
        FlatOne(tmp);
        chains, last := [tmp], 0;
      }
      if removedLastWithData {
        lastWithData := 0;
      } else if removedLastWithDatap {
        // first->next exists and still holds data
        assert |chains| > 1 && chains[1].off > 0;
        lastWithData := 1;
      } else {
        // the link survives; i chains before it became one
        lastWithData := lastWithData - i + 1;
      }
    }

    /**
      evbuffer_pullup: true for a pointer to `size` contiguous bytes. A negative size asks
      for all of them; what lies behind the first chain is then counted in a ssize_t, and
      the assertion about it holds exactly if it fits there.
    */
    method Pullup(size0: int, mallocOk: bool) returns (ok: bool)
      requires Valid() && size0 <= SSIZE_MAX
      requires size0 < 0 && |chains| > 0 ==> totalLen - chains[0].off <= SSIZE_MAX
      modifies this`chains, this`last, this`lastWithData
      ensures Valid() && Contents() == old(Contents())
      ensures var size := if size0 < 0 then totalLen else size0;
              && (ok ==> |chains| > 0 && chains[0].off >= size && chains[0].Data()[..size] == Contents()[..size])
              && (ok <==> 0 < size <= totalLen && |old(chains)| > 0 && PullsUp(old(chains)[0], size, mallocOk))
    {
      hide DataPrefix;
      var size := if size0 < 0 then totalLen else size0;
      if size == 0 || size > totalLen {
        return false;
      }
      EmptyIffFirstEmpty(chains, lastWithData);
      var chain := chains[0];
      if chain.off < size {
        var tmp, i := chain, 1;
        FlatOne(chain);
        assert chains[..1] == [chain];
        // remaining, and EVUTIL_ASSERT(remaining >= 0)
        assert 0 <= size - chain.off <= SSIZE_MAX;
        if |chain.buffer| - chain.misalign < size {
          var first := ChainNew(size, mallocOk);
          if first.None? {
            return false;
          }
          tmp, i := first.value, 0;
        }
        tmp, i := PullWhole(tmp, i, size);
        InstallFirst(tmp, i, size);
      }
      FlatAt(chains, 0);
      ok := true;
    }

    // An empty chain may start again at the front of its memory.
    method RealignEmpty(i: nat)
      requires Valid() && i < |chains| && chains[i].off == 0
      modifies this`chains
      ensures Valid() && Contents() == old(Contents())
      ensures chains == old(chains)[i := old(chains[i]).(misalign := 0)]
    {
      FlatAt(chains, i);
      FlatUpdate(chains, i, chains[i].(misalign := 0));
      chains := chains[i := chains[i].(misalign := 0)];
    }

    // The first loop of evbuffer_expand_fast_: how much room there is in n chains.
    method ProbeSpace(datlen: nat, n: nat) returns (used: nat, avail: nat, ghost i: nat)
      requires Valid() && |chains| > 0 && n >= 2
      modifies this`chains
      ensures Valid() && Contents() == old(Contents()) && |chains| == |old(chains)|
      ensures Probed(chains, lastWithData, i, used, avail) && used <= n
      ensures chains[lastWithData].off > 0 || chains[lastWithData].SpaceLen() > 0
      ensures avail < datlen && used < n ==> i == |chains|
    {
      hide Probed;
      if chains[lastWithData].off == 0 {
        RealignEmpty(lastWithData);
      }
      ProbeFirst(chains, lastWithData);
      avail := chains[lastWithData].SpaceLen();
      used := if avail > 0 then 1 else 0;
      var at := lastWithData + 1;
      while avail < datlen && used < n && at < |chains|
        invariant Valid() && Contents() == old(Contents()) && |chains| == |old(chains)|
        invariant chains[lastWithData].off > 0 || chains[lastWithData].SpaceLen() > 0
        invariant lastWithData < at <= |chains| && Probed(chains, lastWithData, at, used, avail) && used <= n
      {
        // EVUTIL_ASSERT(chain == *buf->last_with_datap) for any chain with data
        assert chains[at].off == 0;
        ProbeNext(chains, lastWithData, at, used, avail);
        RealignEmpty(at);
        avail, used := avail + |chains[at].buffer|, used + 1;
        at := at + 1;
      }
      i := at;
    }

    // Hang an empty chain at the end.
    method AppendEmpty(tmp: Chain)
      requires Valid() && |chains| > 0 && tmp.Ok() && tmp.off == 0
      modifies this`chains, this`last
      ensures Valid() && Contents() == old(Contents()) && chains == old(chains) + [tmp]
    {
      FlatConcat(chains, [tmp]);
      FlatOne(tmp);
      chains, last := chains + [tmp], last + 1;
    }

    // "Nuke _all_ the empty chains."
    method DropEmptyTail()
      requires Valid() && |chains| > 0
      modifies this`chains, this`last
      ensures Valid() && Contents() == old(Contents())
      ensures if old(chains[lastWithData].off) == 0 then chains == [] else chains == old(chains)[..lastWithData + 1]
    {
      var k := if chains[lastWithData].off == 0 then 0 else lastWithData + 1;
      FlatTrim(chains, k);
      chains, last := chains[..k], k - 1;
    }

    // The last part of evbuffer_expand_fast_: one new chain in place of the empty ones.
    method ReplaceEmptyTail(datlen: nat, mallocOk: bool) returns (r: int, ghost m: nat)
      requires Valid() && |chains| > 0 && chains[lastWithData].SpaceLen() < datlen
      modifies this
      ensures freezeStart == old(freezeStart) && freezeEnd == old(freezeEnd)
      ensures Valid() && Contents() == old(Contents()) && (r == 0 || r == -1)
      ensures mallocOk && datlen <= CHAIN_MAX - CHAIN_SIZE ==> r == 0
      ensures r == 0 ==> |chains| > 0 && m <= 2 && Ready(chains, FirstWithSpace(chains, lastWithData), m, datlen)
      ensures r == 0 ==> chains[lastWithData].off > 0 || chains[lastWithData].SpaceLen() > 0
    {
      hide Flat;
      var had := chains[lastWithData];
      DropEmptyTail();
      if had.off == 0 {
        var tmp := ChainNew(datlen, mallocOk);
        if tmp.None? {
          return -1, 0;
        }
        ChainInsert(tmp.value);
        ProbeFirst(chains, 0);
        r, m := 0, 1;
      } else {
        // EVUTIL_ASSERT(datlen >= avail)
        assert datlen >= had.SpaceLen();
        var tmp := ChainNew(datlen - had.SpaceLen(), mallocOk);
        if tmp.None? {
          return -1, 0;
        }
        AppendEmpty(tmp.value);
        ReadyTwo(chains, lastWithData);
        r, m := 0, if had.SpaceLen() > 0 then 2 else 1;
      }
    }

    /**
      evbuffer_expand_fast_: on success the first `m` chains with room, at most n of
      them, have room for datlen bytes.
    */
    method ExpandFast(datlen: nat, n: nat, mallocOk: bool) returns (r: int, ghost m: nat)
      requires Valid() && n >= 2
      modifies this
      ensures freezeStart == old(freezeStart) && freezeEnd == old(freezeEnd)
      ensures Valid() && Contents() == old(Contents()) && (r == 0 || r == -1)
      ensures mallocOk && datlen <= CHAIN_MAX - CHAIN_SIZE ==> r == 0
      ensures r == 0 ==> |chains| > 0 && m <= n && Ready(chains, FirstWithSpace(chains, lastWithData), m, datlen)
      ensures r == 0 ==> chains[lastWithData].off > 0 || chains[lastWithData].SpaceLen() > 0
    {
      hide Room;
      hide Flat;
      m := 0;
      if |chains| == 0 {
        var first := ChainNew(datlen, mallocOk);
        if first.None? {
          return -1, 0;
        }
        ChainInsert(first.value);
        ProbeFirst(chains, 0);
        return 0, 1;
      }
      var used, avail, i := ProbeSpace(datlen, n);
      if avail >= datlen {
        return 0, used;
      }
      if used < n {
        var tmp := ChainNew(datlen - avail, mallocOk);
        if tmp.None? {
          return -1, 0;
        }
        ReadyMore(chains, lastWithData, i, used, avail, tmp.value);
        AppendEmpty(tmp.value);
        return 0, used + 1;
      }
      r, m := ReplaceEmptyTail(datlen, mallocOk);
    }
  }
}
