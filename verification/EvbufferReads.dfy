/**
  Reading from a descriptor into an evbuffer (buffer.c, evbuffer_read): make room in
  up to four chains, hand the free regions to readv, then account for what arrived.
*/
module EvbufferReads {
  import opened Basics
  import opened Chains
  import opened Evbuffers

  const NUM_READ_IOVEC: nat := 4
  const EVBUFFER_MAX_READ: nat := 4096

  /** A struct evbuffer_iovec: `len` bytes of free memory of a chain, from `at` on. */
  datatype Region = Region(chain: nat, at: nat, len: nat)

  ghost function Total(vecs: seq<Region>): (n: nat) {
    if |vecs| == 0 then 0 else Total(vecs[..|vecs| - 1]) + vecs[|vecs| - 1].len
  }

  // Region i is the free end of chain f+i; only the last may be cut short.
  ghost predicate RegionsOf(vecs: seq<Region>, cs: seq<Chain>, f: nat) {
    && AllOk(cs) && f + |vecs| <= |cs|
    && forall i | 0 <= i < |vecs| ::
      && vecs[i].chain == f + i && vecs[i].at == cs[f + i].misalign + cs[f + i].off
      && 0 < vecs[i].len <= cs[f + i].SpaceLen()
      && (i < |vecs| - 1 ==> vecs[i].len == cs[f + i].SpaceLen())
  }

  ghost predicate AllFull(vecs: seq<Region>, cs: seq<Chain>, f: nat) {
    && AllOk(cs) && f + |vecs| <= |cs|
    && Total(vecs) == Room(cs, f, f + |vecs|)
    && forall i | 0 <= i < |vecs| :: vecs[i].len == cs[f + i].SpaceLen()
  }

  lemma {:induction false} AddRegion(vecs: seq<Region>, cs: seq<Chain>, f: nat, len: nat)
    requires RegionsOf(vecs, cs, f) && AllFull(vecs, cs, f) && f + |vecs| < |cs|
    requires 0 < len <= cs[f + |vecs|].SpaceLen()
    ensures var c := cs[f + |vecs|];
            var more := vecs + [Region(f + |vecs|, c.misalign + c.off, len)];
            && RegionsOf(more, cs, f) && Total(more) == Total(vecs) + len
            && (len == c.SpaceLen() ==> AllFull(more, cs, f))
  {
    var c := cs[f + |vecs|];
    var more := vecs + [Region(f + |vecs|, c.misalign + c.off, len)];
    assert more[..|more| - 1] == vecs;
  }

  /** evbuffer_read_setup_vecs_ */
  method ReadSetupVecs(buf: Evbuffer, howmuch: int, nVecsAvail: nat, exact: bool, ghost m: nat)
      returns (n: int, vecs: seq<Region>, first: nat)
    requires buf.Valid() && buf.lastWithData < |buf.chains|
    requires howmuch >= 0 ==>
              m <= nVecsAvail && Ready(buf.chains, FirstWithSpace(buf.chains, buf.lastWithData), m, howmuch)
    ensures first == FirstWithSpace(buf.chains, buf.lastWithData)
    ensures howmuch < 0 ==> n == -1
    ensures howmuch >= 0 ==> n == |vecs| <= nVecsAvail && RegionsOf(vecs, buf.chains, first)
    ensures howmuch >= 0 ==>
              if exact then Total(vecs) == howmuch else Total(vecs) >= howmuch && AllFull(vecs, buf.chains, first)
  {
    hide RegionsOf;
    hide AllFull;
    hide Flat;
    hide DataPrefix;
    hide Room;
    first := buf.lastWithData;
    vecs := [];
    if buf.chains[first].SpaceLen() == 0 {
      first := first + 1;
    }
    if howmuch < 0 {
      return -1, [], first;
    }
    var soFar := 0;
    var i := 0;
    NoRegions(buf.chains, first);
    while i < nVecsAvail && soFar < howmuch
      invariant i == |vecs| <= m && soFar == Total(vecs)
      invariant RegionsOf(vecs, buf.chains, first)
      invariant AllFull(vecs, buf.chains, first) || (exact && soFar == howmuch)
      invariant exact ==> soFar <= howmuch
      decreases nVecsAvail - i
    {
      EnoughByM(vecs, buf.chains, first, m, howmuch);
      var chain := buf.chains[first + i];
      var avail := chain.SpaceLen();
      if avail > howmuch - soFar && exact {
        avail := howmuch - soFar;
      }
      AddRegion(vecs, buf.chains, first, avail);
      vecs := vecs + [Region(first + i, chain.misalign + chain.off, avail)];
      soFar := soFar + avail;
      i := i + 1;
    }
    if soFar < howmuch {
      EnoughByM(vecs, buf.chains, first, m, howmuch);
    }
    n := i;
  }

  lemma NoRegions(cs: seq<Chain>, f: nat)
    requires AllOk(cs) && f <= |cs|
    ensures RegionsOf([], cs, f) && AllFull([], cs, f)
  {
  }

  lemma EnoughByM(vecs: seq<Region>, cs: seq<Chain>, f: nat, m: nat, want: nat)
    requires AllFull(vecs, cs, f) && Ready(cs, f, m, want) && |vecs| <= m && Total(vecs) < want
    ensures |vecs| < m
  {
  }

  // Where in the arriving data region i starts.
  ghost function Lo(vecs: seq<Region>, i: nat, n: nat): (k: nat)
    requires i <= |vecs|
    ensures k <= n
  {
    if Total(vecs[..i]) < n then Total(vecs[..i]) else n
  }

  lemma LoNothing(vecs: seq<Region>, n: nat)
    ensures Lo(vecs, 0, n) == 0
  {
  }

  lemma {:induction false} LoNext(vecs: seq<Region>, i: nat, n: nat)
    requires i < |vecs|
    ensures Lo(vecs, 0, n) == 0
    ensures Lo(vecs, i, n) <= Lo(vecs, i + 1, n) <= Lo(vecs, i, n) + vecs[i].len
    ensures Lo(vecs, i + 1, n) == if n - Lo(vecs, i, n) <= vecs[i].len then n else Lo(vecs, i, n) + vecs[i].len
  {
    assert vecs[..i + 1][..i] == vecs[..i];
  }

  // The bytes readv puts into region i.
  ghost function Piece(vecs: seq<Region>, data: seq<Byte>, i: nat): (p: seq<Byte>)
    requires i < |vecs|
    ensures |p| <= vecs[i].len
  {
    LoNext(vecs, i, |data|);
    data[Lo(vecs, i, |data|)..Lo(vecs, i + 1, |data|)]
  }

  // What has become of chain j: adjusted, filled but not yet adjusted, or untouched.
  ghost function After(was: seq<Chain>, f: nat, vecs: seq<Region>, data: seq<Byte>, k: nat, j: nat): (c: Chain)
    requires RegionsOf(vecs, was, f) && j < |was| && k <= |vecs|
    ensures c.Ok()
  {
    if j < f || f + |vecs| <= j then was[j]
    else
      assert |Piece(vecs, data, j - f)| <= vecs[j - f].len <= was[f + (j - f)].SpaceLen();
      if j < f + k then was[j].Append(Piece(vecs, data, j - f))
      else was[j].Scribble(Piece(vecs, data, j - f))
  }

  /**
    The chains `now` are the chains `was` after readv filled the regions, with the
    lengths of the first k regions' chains already adjusted.
  */
  ghost predicate Committed(now: seq<Chain>, was: seq<Chain>, f: nat, vecs: seq<Region>, data: seq<Byte>, k: nat) {
    && RegionsOf(vecs, was, f) && |now| == |was| && k <= |vecs|
    && forall j | 0 <= j < |was| :: now[j] == After(was, f, vecs, data, k, j)
  }

  lemma NothingFilled(was: seq<Chain>, f: nat, vecs: seq<Region>, data: seq<Byte>)
    requires RegionsOf(vecs, was, f)
    ensures Lo(vecs, 0, |data|) == 0 && AllOk(was) && f + |vecs| <= |was|
    ensures forall j | 0 <= j < |was| && (j < f || f + |vecs| <= j) :: After(was, f, vecs, data, 0, j) == was[j]
  {
  }

  lemma {:induction false} PieceAt(was: seq<Chain>, f: nat, vecs: seq<Region>, data: seq<Byte>, i: nat)
    requires RegionsOf(vecs, was, f) && i < |vecs|
    ensures vecs[i].chain == f + i < |was| && vecs[i].len <= was[f + i].SpaceLen()
    ensures var lo := Lo(vecs, i, |data|);
            var n := if |data| - lo <= vecs[i].len then |data| - lo else vecs[i].len;
            && lo + n == Lo(vecs, i + 1, |data|)
            && After(was, f, vecs, data, 0, f + i) == was[f + i].Scribble(data[lo..lo + n])
  {
    hide Lo; hide Total; hide Chain.Scribble; hide Chain.Append;
    LoNext(vecs, i, |data|);
  }

  /** readv: the kernel fills the regions in order with the arriving bytes. */
  method ReadV(buf: Evbuffer, vecs: seq<Region>, first: nat, data: seq<Byte>)
    requires RegionsOf(vecs, buf.chains, first) && |data| <= Total(vecs)
    modifies buf`chains
    ensures Committed(buf.chains, old(buf.chains), first, vecs, data, 0)
  {
    hide RegionsOf; hide After; hide Lo; hide Total; hide Chain.Scribble;
    var i, pos := 0, 0;
    ghost var was := buf.chains;
    NothingFilled(was, first, vecs, data);
    while i < |vecs|
      invariant 0 <= i <= |vecs| && pos == Lo(vecs, i, |data|) && |buf.chains| == |was|
      invariant forall j | 0 <= j < |was| ::
                buf.chains[j] == if j < first + i then After(was, first, vecs, data, 0, j) else was[j]
    {
      PieceAt(was, first, vecs, data, i);
      var n := if |data| - pos <= vecs[i].len then |data| - pos else vecs[i].len;
      var c := vecs[i].chain;
      buf.chains := buf.chains[c := buf.chains[c].Scribble(data[pos..pos + n])];
      pos := pos + n;
      i := i + 1;
    }
  }

  lemma {:induction false} TotalPrefix(vecs: seq<Region>, i: nat)
    requires i < |vecs|
    ensures Total(vecs[..i]) + vecs[i].len == Total(vecs[..i + 1]) <= Total(vecs)
    decreases |vecs| - i
  {
    assert vecs[..i + 1][..i] == vecs[..i];
    if i + 1 == |vecs| {
      assert vecs[..i + 1] == vecs;
    } else {
      TotalPrefix(vecs, i + 1);
    }
  }

  // Adjusting one more length; `n` is what the commit loop adds to it.
  lemma {:induction false} CommitStep(
    now: seq<Chain>, was: seq<Chain>, f: nat, vecs: seq<Region>, data: seq<Byte>, i: nat)
    requires Committed(now, was, f, vecs, data, i) && i < |vecs|
    requires |data| <= Total(vecs) && Lo(vecs, i, |data|) < |data|
    ensures f + i < |now| && now[f + i].Ok()
    ensures var remaining := |data| - Lo(vecs, i, |data|);
            var n := if now[f + i].SpaceLen() < remaining then now[f + i].SpaceLen() else remaining;
            && n == |Piece(vecs, data, i)| > 0
            && Lo(vecs, i + 1, |data|) == Lo(vecs, i, |data|) + n
            && (n < remaining ==> i + 1 < |vecs|)
            && now[f + i].(off := now[f + i].off + n) == was[f + i].Append(Piece(vecs, data, i))
  {
    LoNext(vecs, i, |data|);
    TotalPrefix(vecs, i);
    assert now[f + i] == After(was, f, vecs, data, i, f + i);
    assert was[f + i].Ok() && vecs[i].len <= was[f + i].SpaceLen();
    if i == |vecs| - 1 {
      assert vecs[..i + 1] == vecs;
    }
  }

  lemma {:induction false} CommitMore(
    now: seq<Chain>, was: seq<Chain>, f: nat, vecs: seq<Region>, data: seq<Byte>, i: nat, c: Chain)
    requires Committed(now, was, f, vecs, data, i) && i < |vecs|
    requires f + i < |was| && was[f + i].Ok() && |Piece(vecs, data, i)| <= was[f + i].SpaceLen()
    requires c == was[f + i].Append(Piece(vecs, data, i))
    ensures Committed(now[f + i := c], was, f, vecs, data, i + 1)
  {
    hide Lo; hide Total; hide Piece; hide Chain.Scribble; hide Chain.Append;
    var next := now[f + i := c];
    forall j | 0 <= j < |was| ensures next[j] == After(was, f, vecs, data, i + 1, j) {
      assert now[j] == After(was, f, vecs, data, i, j);
    }
  }

  // One more chain at the end of both lists; only the first region's chain had data.
  lemma {:induction false} OneMoreChain(now: seq<Chain>, was: seq<Chain>, at: nat, lo: seq<Byte>, piece: seq<Byte>)
    requires AllOk(now) && AllOk(was) && |now| == |was| && at < |was|
    requires now[at].Data() == was[at].Data() + piece
    requires Flat(now[..at]) == Flat(was[..at]) + lo && (lo == [] || was[at].off == 0)
    ensures Flat(now[..at + 1]) == Flat(was[..at + 1]) + (lo + piece)
  {
    FlatAt(now[..at + 1], at);
    FlatAt(was[..at + 1], at);
    assert now[..at + 1][..at] == now[..at] && was[..at + 1][..at] == was[..at];
    assert now[..at + 1][at + 1..] == [] && was[..at + 1][at + 1..] == [];
    var pre, d := Flat(was[..at]), was[at].Data();
    assert Flat(now[..at + 1]) == pre + lo + (d + piece);
    assert Flat(was[..at + 1]) == pre + d;
    if lo == [] {
      assert pre + lo == pre && lo + piece == piece;
      Assoc(pre, d, piece);
    } else {
      assert d + piece == piece && pre + d == pre;
      Assoc(pre, lo, piece);
    }
  }

  lemma {:induction false} CommittedOk(
    now: seq<Chain>, was: seq<Chain>, f: nat, vecs: seq<Region>, data: seq<Byte>, n: nat)
    requires Committed(now, was, f, vecs, data, n)
    ensures AllOk(now) && AllOk(was) && n <= |vecs| && f + |vecs| <= |was| == |now|
    ensures forall j | 0 <= j < f :: now[j] == was[j]
    ensures forall j | f + n <= j < |was| :: now[j].off == was[j].off
    ensures forall j | f <= j < f + n :: now[j].Data() == was[j].Data() + Piece(vecs, data, j - f)
  {
    forall j | 0 <= j < |now|
      ensures now[j].Ok()
      ensures j < f ==> now[j] == was[j]
      ensures f + n <= j ==> now[j].off == was[j].off
      ensures f <= j < f + n ==> now[j].Data() == was[j].Data() + Piece(vecs, data, j - f)
    {
      assert now[j] == After(was, f, vecs, data, n, j);
      if f <= j < f + |vecs| {
        assert vecs[j - f].len <= was[f + (j - f)].SpaceLen();
      }
    }
  }

  // Everything up to the k-th region: the old bytes, then what has arrived there.
  lemma {:induction false} CommittedFlat(
    now: seq<Chain>, was: seq<Chain>, f: nat, vecs: seq<Region>, data: seq<Byte>, n: nat, k: nat)
    requires Committed(now, was, f, vecs, data, n) && k <= n
    requires forall j | f < j < |was| :: was[j].off == 0
    ensures f + k <= |now| && AllOk(now)
    ensures Flat(now[..f + k]) == Flat(was[..f + k]) + data[..Lo(vecs, k, |data|)]
    decreases k
  {
    hide After;
    hide Committed;
    hide Flat;
    CommittedOk(now, was, f, vecs, data, n);
    if k == 0 {
      LoNothing(vecs, |data|);
      assert now[..f] == was[..f];
      assert data[..0] == [];
    } else {
      var i := k - 1;
      CommittedFlat(now, was, f, vecs, data, n, i);
      LoNext(vecs, i, |data|);
      var lo := data[..Lo(vecs, i, |data|)];
      OneMoreChain(now, was, f + i, lo, Piece(vecs, data, i));
      assert lo + Piece(vecs, data, i) == data[..Lo(vecs, k, |data|)];
    }
  }

  lemma {:induction false} CommittedAll(
    now: seq<Chain>, was: seq<Chain>, link: nat, vecs: seq<Region>, data: seq<Byte>, k: nat)
    requires AllOk(was) && DataPrefix(was, link) && link < |was|
    requires FirstWithSpace(was, link) == link || was[link].off > 0
    requires Committed(now, was, FirstWithSpace(was, link), vecs, data, k)
    requires 0 < k && Lo(vecs, k, |data|) == |data|
    requires forall i | 0 <= i < k :: |Piece(vecs, data, i)| > 0
    ensures |now| == |was| && AllOk(now) && Flat(now) == Flat(was) + data
    ensures DataPrefix(now, FirstWithSpace(was, link) + k - 1)
  {
    hide After;
    hide Lo;
    hide Committed;
    hide Flat;
    var f := FirstWithSpace(was, link);
    CommittedOk(now, was, f, vecs, data, k);
    CommittedFlat(now, was, f, vecs, data, k, k);
    assert data[..|data|] == data;
    assert AllEmpty(was[f + k..]) && AllEmpty(now[f + k..]);
    FlatTrim(now, f + k);
    FlatTrim(was, f + k);
    forall j | f <= j < f + k ensures now[j].off > 0 {
      assert |Piece(vecs, data, j - f)| > 0;
      assert |now[j].Data()| == |was[j].Data()| + |Piece(vecs, data, j - f)|;
    }
  }

  /** The loop of evbuffer_read that adjusts the lengths after n bytes arrived. */
  method CommitRead(
    buf: Evbuffer, vecs: seq<Region>, first: nat, n: nat, ghost was: seq<Chain>, ghost data: seq<Byte>)
    returns (ghost k: nat)
    requires Committed(buf.chains, was, first, vecs, data, 0) && |data| == n && 0 < n <= Total(vecs)
    modifies buf`chains, buf`lastWithData
    ensures 0 < k <= |vecs| && Committed(buf.chains, was, first, vecs, data, k) && Lo(vecs, k, n) == n
    ensures forall i | 0 <= i < k :: |Piece(vecs, data, i)| > 0
    ensures buf.lastWithData == first + k - 1
  {
    hide Committed;
    hide RegionsOf;
    hide Lo;
    var i, remaining := 0, n;
    LoNothing(vecs, n);
    NonemptyRegions(vecs);
    while true
      invariant 0 <= i < |vecs| && Committed(buf.chains, was, first, vecs, data, i)
      invariant remaining == n - Lo(vecs, i, n) > 0
      invariant forall j | 0 <= j < i :: |Piece(vecs, data, j)| > 0
      decreases |vecs| - i
    {
      CommitStep(buf.chains, was, first, vecs, data, i);
      CommittedOk(buf.chains, was, first, vecs, data, i);
      RegionFits(buf.chains, was, first, vecs, data, i);
      var chain := buf.chains[first + i];
      var space := chain.SpaceLen();
      if space < remaining {
        CommitMore(buf.chains, was, first, vecs, data, i, chain.(off := chain.off + space));
        buf.chains := buf.chains[first + i := chain.(off := chain.off + space)];
        remaining := remaining - space;
        i := i + 1;
      } else {
        CommitMore(buf.chains, was, first, vecs, data, i, chain.(off := chain.off + remaining));
        buf.chains := buf.chains[first + i := chain.(off := chain.off + remaining)];
        buf.lastWithData := first + i;
        k := i + 1;
        return;
      }
    }
  }

  lemma NonemptyRegions(vecs: seq<Region>)
    ensures Total(vecs) > 0 ==> |vecs| > 0
  {
  }

  lemma RegionFits(now: seq<Chain>, was: seq<Chain>, f: nat, vecs: seq<Region>, data: seq<Byte>, i: nat)
    requires Committed(now, was, f, vecs, data, i) && i < |vecs|
    ensures f + i < |was| && was[f + i].Ok() && |Piece(vecs, data, i)| <= was[f + i].SpaceLen()
  {
    assert vecs[i].len <= was[f + i].SpaceLen();
  }

  // How much evbuffer_read asks for, given what FIONREAD says is readable.
  function ReadLimit(howmuch: int, readable: int): (n: nat)
    ensures n <= EVBUFFER_MAX_READ && (howmuch >= 0 ==> n <= howmuch)
    ensures 0 < readable <= EVBUFFER_MAX_READ ==> n <= readable
    ensures n == EVBUFFER_MAX_READ || n == howmuch || n == readable
    ensures !(0 < readable <= EVBUFFER_MAX_READ) ==> n == EVBUFFER_MAX_READ || n == howmuch
  {
    var n := if readable <= 0 || readable > EVBUFFER_MAX_READ then EVBUFFER_MAX_READ else readable;
    if howmuch < 0 || howmuch > n then n else howmuch
  }

  /**
    evbuffer_read: `arriving` is what readv delivers, nothing for an error; it
    delivers no more than it was asked for.
  */
  method Read(buf: Evbuffer, howmuch: int, readable: int, arriving: Option<seq<Byte>>, mallocOk: bool) returns (r: int)
    requires buf.Valid()
    requires arriving.Some? ==> |arriving.value| <= ReadLimit(howmuch, readable)
    modifies buf
    ensures buf.Valid() && buf.freezeStart == old(buf.freezeStart) && buf.freezeEnd == old(buf.freezeEnd)
    ensures buf.freezeEnd || arriving.None? ==> r == -1
    ensures mallocOk && !buf.freezeEnd && arriving.Some? ==> r == |arriving.value|
    ensures r == -1 ==> buf.Contents() == old(buf.Contents())
    ensures r != -1 ==>
              arriving.Some? && r == |arriving.value| && buf.Contents() == old(buf.Contents()) + arriving.value
  {
    if buf.freezeEnd {
      return -1;
    }
    var limit := ReadLimit(howmuch, readable);
    var expanded, m := buf.ExpandFast(limit, NUM_READ_IOVEC, mallocOk);
    if expanded == -1 {
      return -1;
    }
    var nvecs, vecs, first := ReadSetupVecs(buf, limit, NUM_READ_IOVEC, true, m);
    if arriving.None? {
      return -1;
    }
    if |arriving.value| == 0 {
      return 0;
    }
    Arrive(buf, vecs, first, arriving.value);
    r := |arriving.value|;
  }

  // readv followed by the adjustment of lengths and total.
  method Arrive(buf: Evbuffer, vecs: seq<Region>, first: nat, data: seq<Byte>)
    requires buf.Valid() && buf.lastWithData < |buf.chains|
    requires first == FirstWithSpace(buf.chains, buf.lastWithData)
    requires buf.chains[buf.lastWithData].off > 0 || first == buf.lastWithData
    requires RegionsOf(vecs, buf.chains, first) && 0 < |data| <= Total(vecs)
    modifies buf`chains, buf`lastWithData, buf`totalLen
    ensures buf.Valid() && buf.Contents() == old(buf.Contents()) + data
  {
    hide RegionsOf;
    hide Committed;
    ghost var was, link := buf.chains, buf.lastWithData;
    ReadV(buf, vecs, first, data);
    ghost var k := CommitRead(buf, vecs, first, |data|, was, data);
    CommittedAll(buf.chains, was, link, vecs, data, k);
    buf.totalLen := buf.totalLen + |data|;
  }
}
