/**
  The chunks an evbuffer is made of (evbuffer-internal.h, struct evbuffer_chain)
  and the flat byte view of a list of them.

  Every chain here is mutable and unpinned: its memory is its own, and the length
  of that memory is the source's buffer_len.
*/
module Chains {
  import opened Basics

  const CHAIN_MAX: nat := SIZE_MAX
  const CHAIN_SIZE: nat := 32
  const MIN_BUFFER_SIZE: nat := 512
  const MAX_AUTO_SIZE: nat := 4096
  const MAX_TO_REALIGN_IN_EXPAND: nat := 2048

  datatype Chain = Chain(buffer: seq<Byte>, misalign: nat, off: nat) {

    ghost predicate Ok() {
      0 < |buffer| <= CHAIN_MAX - CHAIN_SIZE && misalign + off <= |buffer|
    }

    // The bytes stored in the chain.
    function Data(): (d: seq<Byte>)
      requires Ok()
      ensures |d| == off
    {
      buffer[misalign..misalign + off]
    }

    // CHAIN_SPACE_LEN of a mutable chain
    function SpaceLen(): (n: nat)
      requires Ok()
      ensures misalign + off + n == |buffer|
    {
      |buffer| - (misalign + off)
    }

    // evbuffer_chain_should_realign
    predicate ShouldRealign(datlen: nat)
      requires Ok()
    {
      |buffer| - off >= datlen && off < |buffer| / 2 && off <= MAX_TO_REALIGN_IN_EXPAND
    }

    // Copy `data` into the free space behind the stored bytes.
    function Append(data: seq<Byte>): (c: Chain)
      requires Ok() && |data| <= SpaceLen()
      ensures c.Ok() && c.Data() == Data() + data
      ensures |c.buffer| == |buffer| && c.misalign == misalign
    {
      var at := misalign + off;
      var c := Chain(buffer[..at] + data + buffer[at + |data|..], misalign, off + |data|);
      assert c.buffer[misalign..misalign + c.off] == Data() + data;
      c
    }

    // Copy `data` into the gap in front of the stored bytes.
    function PushFront(data: seq<Byte>): (c: Chain)
      requires Ok() && |data| <= misalign
      ensures c.Ok() && c.Data() == data + Data()
      ensures |c.buffer| == |buffer| && c.misalign == misalign - |data|
    {
      var at := misalign - |data|;
      var c := Chain(buffer[..at] + data + buffer[misalign..], at, off + |data|);
      assert c.buffer[at..at + c.off] == data + Data();
      c
    }

    // Forget the first `n` stored bytes.
    function DropFront(n: nat): (c: Chain)
      requires Ok() && n <= off
      ensures c.Ok() && c.Data() == Data()[n..]
      ensures c.buffer == buffer && c.misalign == misalign + n
    {
      this.(misalign := misalign + n, off := off - n)
    }

    // evbuffer_chain_align: slide the stored bytes to the start of the memory.
    function Align(): (c: Chain)
      requires Ok()
      ensures c.Ok() && c.misalign == 0 && |c.buffer| == |buffer|
      ensures c.Data() == Data()
    {
      var c := Chain(Data() + buffer[off..], 0, off);
      assert c.buffer[..off] == Data();
      c
    }

    // Bytes written behind the stored ones, before any length is adjusted.
    function Scribble(data: seq<Byte>): (c: Chain)
      requires Ok() && |data| <= SpaceLen()
      ensures c.Ok() && c.Data() == Data() && c.off == off && c.misalign == misalign && |c.buffer| == |buffer|
      ensures c.buffer[misalign + off..misalign + off + |data|] == data
    {
      Append(data).(off := off)
    }
  }

  /** The smallest doubling of MIN_BUFFER_SIZE that holds `size` bytes. */
  method RoundUpAllocation(size: nat) returns (toAlloc: nat)
    requires size < CHAIN_MAX / 2
    ensures size <= toAlloc < CHAIN_MAX && MIN_BUFFER_SIZE <= toAlloc
    ensures toAlloc == MIN_BUFFER_SIZE || toAlloc < 2 * size
  {
    toAlloc := MIN_BUFFER_SIZE;
    while toAlloc < size
      invariant MIN_BUFFER_SIZE <= toAlloc
      invariant toAlloc == MIN_BUFFER_SIZE || toAlloc < 2 * size
      decreases size - toAlloc
    {
      toAlloc := toAlloc * 2;
    }
  }

  /** evbuffer_chain_new: nothing when the size is out of range or malloc refuses. */
  method ChainNew(size: nat, mallocOk: bool) returns (chain: Option<Chain>)
    ensures chain.Some? <==> mallocOk && size <= CHAIN_MAX - CHAIN_SIZE
    ensures chain.Some? ==>
              var c := chain.value;
              && c.Ok() && c.misalign == 0 && c.off == 0 && c.SpaceLen() >= size
              && |c.buffer| >= MIN_BUFFER_SIZE - CHAIN_SIZE
  {
    if size > CHAIN_MAX - CHAIN_SIZE {
      return None;
    }
    var want := size + CHAIN_SIZE;
    var toAlloc: nat;
    if want < CHAIN_MAX / 2 {
      toAlloc := RoundUpAllocation(want);
    } else {
      toAlloc := want;
    }
    if !mallocOk {
      return None;
    }
    chain := Some(Chain(seq(toAlloc - CHAIN_SIZE, _ => 0), 0, 0));
  }

  // ------------------------------------------------------------------------
  // Lists of chains

  ghost predicate AllOk(cs: seq<Chain>) {
    forall i | 0 <= i < |cs| :: cs[i].Ok()
  }

  // The bytes of a list of chains, in order.
  ghost function Flat(cs: seq<Chain>): (s: seq<Byte>)
    requires AllOk(cs)
  {
    if |cs| == 0 then [] else cs[0].Data() + Flat(cs[1..])
  }

  lemma {:induction false} FlatConcat(a: seq<Chain>, b: seq<Chain>)
    requires AllOk(a) && AllOk(b)
    ensures AllOk(a + b) && Flat(a + b) == Flat(a) + Flat(b)
  {
    if |a| == 0 {
      assert a + b == b;
    } else {
      FlatConcat(a[1..], b);
      assert (a + b)[1..] == a[1..] + b;
    }
  }

  lemma {:induction false} FlatOne(c: Chain)
    requires c.Ok()
    ensures Flat([c]) == c.Data()
  {
    assert [c][1..] == [];
  }

  lemma {:induction false} FlatHead(cs: seq<Chain>)
    requires AllOk(cs) && |cs| > 0
    ensures AllOk(cs[1..]) && Flat(cs) == cs[0].Data() + Flat(cs[1..])
  {
  }

  lemma {:induction false} FlatSplit(cs: seq<Chain>, k: nat)
    requires AllOk(cs) && k <= |cs|
    ensures Flat(cs) == Flat(cs[..k]) + Flat(cs[k..])
  {
    FlatConcat(cs[..k], cs[k..]);
    assert cs == cs[..k] + cs[k..];
  }

  // The bytes in front of chain k, in chain k, and behind it.
  lemma {:induction false} FlatAt(cs: seq<Chain>, k: nat)
    requires AllOk(cs) && k < |cs|
    ensures Flat(cs) == Flat(cs[..k]) + cs[k].Data() + Flat(cs[k + 1..])
  {
    FlatSplit(cs, k);
    assert cs[k..][1..] == cs[k + 1..];
  }

  lemma {:induction false} FlatSnoc(cs: seq<Chain>, k: nat)
    requires AllOk(cs) && k < |cs|
    ensures Flat(cs[..k + 1]) == Flat(cs[..k]) + cs[k].Data()
  {
    FlatAt(cs[..k + 1], k);
    assert cs[..k + 1][..k] == cs[..k] && cs[..k + 1][k + 1..] == [];
  }

  lemma {:induction false} FlatUpdate(cs: seq<Chain>, k: nat, c: Chain)
    requires AllOk(cs) && k < |cs| && c.Ok()
    ensures AllOk(cs[k := c])
    ensures Flat(cs[k := c]) == Flat(cs[..k]) + c.Data() + Flat(cs[k + 1..])
  {
    FlatAt(cs[k := c], k);
    assert cs[k := c][..k] == cs[..k];
    assert cs[k := c][k + 1..] == cs[k + 1..];
  }

  ghost predicate AllEmpty(cs: seq<Chain>) {
    forall i | 0 <= i < |cs| :: cs[i].off == 0
  }

  lemma {:induction false} FlatEmpty(cs: seq<Chain>)
    requires AllOk(cs) && AllEmpty(cs)
    ensures Flat(cs) == []
  {
    if |cs| != 0 {
      FlatEmpty(cs[1..]);
    }
  }

  // How many bytes the first k chains hold.
  ghost function BytesBefore(cs: seq<Chain>, k: nat): (n: nat)
    requires AllOk(cs) && k <= |cs|
  {
    |Flat(cs[..k])|
  }

  lemma {:induction false} BytesBeforeNext(cs: seq<Chain>, k: nat)
    requires AllOk(cs) && k < |cs|
    ensures BytesBefore(cs, k + 1) == BytesBefore(cs, k) + cs[k].off <= |Flat(cs)|
  {
    FlatAt(cs[..k + 1], k);
    assert cs[..k + 1][..k] == cs[..k];
    FlatSplit(cs, k + 1);
  }

  lemma {:induction false} BytesBeforeEnd(cs: seq<Chain>)
    requires AllOk(cs)
    ensures BytesBefore(cs, 0) == 0 && BytesBefore(cs, |cs|) == |Flat(cs)|
  {
    assert cs[..|cs|] == cs;
  }

  // A stretch inside chain k, read from the flat view.
  lemma {:induction false} FlatSlice(cs: seq<Chain>, k: nat, from: nat, to: nat)
    requires AllOk(cs) && k < |cs| && from <= to <= cs[k].off
    ensures BytesBefore(cs, k) + to <= |Flat(cs)|
    ensures Flat(cs)[BytesBefore(cs, k) + from..BytesBefore(cs, k) + to] == cs[k].Data()[from..to]
  {
    FlatAt(cs, k);
  }
}
