/**
  The functions of event_tagging.c over an evbuffer, which is here the bytes it holds:
  the loops that fill and read the little arrays, and marshalling and unmarshalling on
  top of them. Memory for the buffer is there.
*/
module TagStreams {
  import opened Basics
  import opened Tagging

  // Nibble number k once the first off - 1 nibbles of s are stored behind the first slot.
  function Slot(s: seq<nat>, off: nat, k: nat): (n: nat)
    requires off <= |s| + 1 && forall i | 0 <= i < |s| :: s[i] < 16
    ensures n < 16
  {
    if 1 <= k < off then s[k - 1] else 0
  }

  lemma {:induction false} PackIs(s: seq<nat>, i: nat)
    requires (forall i | 0 <= i < |s| :: s[i] < 16) && i < |Pack(s)|
    ensures Pack(s)[i] == s[2 * i] * 16 + if 2 * i + 1 < |s| then s[2 * i + 1] else 0
  {
    PackAt(s, 2 * i);
    PackAt(s, 2 * i + 1);
    assert (2 * i) % 2 == 0 && (2 * i + 1) % 2 == 1;
  }

  // The nibbles of s before slot number `off` are in place, and nothing else is.
  ghost predicate Stored(data: array<Byte>, s: seq<nat>, off: nat)
    requires off <= |s| + 1 && forall i | 0 <= i < |s| :: s[i] < 16
    reads data
  {
    forall i | 0 <= i < data.Length :: data[i] == Slot(s, off, 2 * i) * 16 + Slot(s, off, 2 * i + 1)
  }

  method Clear(data: array<Byte>)
    modifies data
    ensures forall i | 0 <= i < data.Length :: data[i] == 0
  {
    for i := 0 to data.Length
      invariant forall l | 0 <= l < i :: data[l] == 0
    {
      data[i] := 0;
    }
  }

  // The next nibble goes into the low or the high half of its byte.
  method Store(data: array<Byte>, ghost s: seq<nat>, off: nat, x: nat)
    requires (forall i | 0 <= i < |s| :: s[i] < 16) && 1 <= off <= |s| && x == s[off - 1] && off / 2 < data.Length
    requires Stored(data, s, off)
    modifies data
    ensures Stored(data, s, off + 1)
  {
    var h := off / 2;
    assert data[h] == Slot(s, off, 2 * h) * 16 + Slot(s, off, 2 * h + 1);
    if off % 2 == 1 {
      data[h] := data[h] - data[h] % 16 + x;
    } else {
      data[h] := data[h] % 16 + x * 16;
    }
  }

  // The loop of ENCODE_INT_INTERNAL
  method StoreAll(data: array<Byte>, n: nat) returns (off: nat)
    requires |Nibbles(n)| <= 2 * data.Length - 2
    modifies data
    ensures off == |Nibbles(n)| + 1 && Stored(data, Nibbles(n), off)
  {
    ghost var s := Nibbles(n);
    Clear(data);
    var number := n;
    off := 1;
    while number != 0
      invariant 1 <= off <= |s| + 1 && Nibbles(number) == s[off - 1..]
      invariant Stored(data, s, off)
      decreases number
    {
      assert s[off - 1] == Nibbles(number)[0] == number % 16;
      assert s[off..] == s[off - 1..][1..];
      Store(data, s, off, number % 16);
      number := number / 16;
      off := off + 1;
    }
  }

  // The count of nibbles goes into the high half of the first byte.
  method PutCount(data: array<Byte>, n: nat, off: nat) returns (len: nat)
    requires |Nibbles(n)| <= 16 && off == |Nibbles(n)| + 1 && (off + 1) / 2 <= data.Length
              && Stored(data, Nibbles(n), off)
    modifies data
    ensures len == |IntBytes(n)| <= data.Length && forall i | 0 <= i < len :: data[i] == IntBytes(n)[i]
  {
    NoNibbles(n);
    hide Nibbles; hide IntBytes;
    var nibbles := if off > 2 then off - 2 else 0;
    len := (off + 1) / 2;
    forall i: nat | i < len
      ensures |IntBytes(n)| == len
      ensures IntBytes(n)[i] == if i > 0 then data[i] else nibbles * 16 + data[0] % 16
    {
      IntByteIs(n, i);
    }
    data[0] := data[0] % 16 + nibbles * 16;
  }

  /** encode_int_internal and encode_int64_internal */
  method EncodeInt(data: array<Byte>, n: nat) returns (len: nat)
    requires 1 < data.Length <= 9 && n < Pow16(2 * (data.Length - 1))
    modifies data
    ensures |Nibbles(n)| <= 16 && len == |IntBytes(n)| <= data.Length && data[..len] == IntBytes(n)
  {
    NibbleCount(n, 2 * (data.Length - 1));
    hide Nibbles; hide Pow16; hide IntBytes; hide Stored;
    var off := StoreAll(data, n);
    len := PutCount(data, n, off);
  }

  lemma IntByteIs(n: nat, i: nat)
    requires |Nibbles(n)| <= 16 && i < (|Nibbles(n)| + 2) / 2
    ensures |IntBytes(n)| == (|Nibbles(n)| + 2) / 2
    ensures var s, off := Nibbles(n), |Nibbles(n)| + 1;
            IntBytes(n)[i]
                == (if i > 0 then Slot(s, off, 2 * i) else if n == 0 then 0 else off - 2) * 16 + Slot(s, off, 2 * i + 1)
  {
    NoNibbles(n);
    hide Nibbles; hide Pack;
    PackIs(IntNibbles(n), i);
  }

  lemma NoNibbles(n: nat)
    ensures n == 0 <==> Nibbles(n) == []
  {
  }

  /** decode_int_internal and decode_int64_internal; the number never leaves its width */
  method DecodeInt(bytes: seq<Byte>, offset: nat, maxNibbles: nat) returns (r: Option<(nat, nat)>)
    requires offset <= |bytes| <= SIZE_MAX
    ensures r == ParseInt(bytes[offset..], maxNibbles)
    ensures r.Some? ==> r.value.0 < Pow16(maxNibbles) && offset + r.value.1 <= |bytes|
  {
    hide NumberAt; hide Pow16;
    // the difference of two sizes, as an ev_ssize_t
    if ToInt32(|bytes| - offset) <= 0 {
      return None;
    }
    var data := bytes[offset..];
    var nibbles := data[0] / 16 + 1;
    if nibbles > maxNibbles || nibbles / 2 + 1 > |data| {
      return None;
    }
    var len := nibbles / 2 + 1;
    var number := ReadNibbles(data, nibbles);
    NumberAtBound(data, 1, nibbles);
    PowMonotone(nibbles, maxNibbles);
    return Some((number, len));
  }

  // The loop, from the last nibble to the first.
  method ReadNibbles(data: seq<Byte>, m: nat) returns (number: nat)
    requires m / 2 < |data|
    ensures number == NumberAt(data, 1, m)
  {
    number := 0;
    var nibbles := m;
    while nibbles > 0
      invariant 0 <= nibbles <= m && number == NumberAt(data, nibbles + 1, m)
    {
      number := number * 16 + if nibbles % 2 == 1 then data[nibbles / 2] % 16 else data[nibbles / 2] / 16;
      nibbles := nibbles - 1;
    }
  }

  lemma {:induction false} PowMonotone(a: nat, b: nat)
    requires a <= b
    ensures Pow16(a) <= Pow16(b)
    decreases b
  {
    if a < b {
      PowMonotone(a, b - 1);
    }
  }

  /** The loop of evtag_encode_tag */
  method EncodeTag(data: array<Byte>, tag: nat) returns (bytes: nat)
    requires data.Length == 5 && tag < WORD
    modifies data
    ensures bytes <= 5 && data[..bytes] == TagBytes(tag)
  {
    TagLimitIs32Bits();
    hide TagLimit; hide TagBytes;
    bytes := 0;
    var rest: nat, more := tag, true;
    ghost var tail := TagBytes(tag);
    assert [] + tail == tail;
    while more
      invariant bytes <= 5 && (more ==> bytes <= 4 && rest < TagLimit(bytes) && tail == TagBytes(rest))
                && (!more ==> tail == [])
      invariant TagBytes(tag) == data[..bytes] + tail
      decreases more, rest
    {
      TagNext(rest, bytes);
      var lower: Byte := rest % 128;
      ghost var before := data[..bytes];
      rest := rest / 128;
      if rest != 0 {
        lower := lower + 128;
      }
      data[bytes] := lower;
      bytes := bytes + 1;
      assert data[..bytes] == before + [lower];
      more := rest != 0;
      ghost var tail' := if more then TagBytes(rest) else [];
      assert tail == [lower] + tail';
      Assoc(before, [lower], tail');
      tail := tail';
    }
  }

  // The first byte of a tag, and what is left for the others.
  lemma TagNext(rest: nat, i: nat)
    requires i <= 4 && rest < TagLimit(i)
    ensures rest < 128 ==> rest / 128 == 0 && TagBytes(rest) == [rest % 128]
    ensures rest >= 128 ==>
              rest / 128 > 0 && i < 4 && rest / 128 < TagLimit(i + 1)
                  && TagBytes(rest) == [rest % 128 + 128] + TagBytes(rest / 128)
  {
  }

  // Low bits already read, put under what follows.
  function Under(number: nat, scale: nat, r: Option<(nat, nat)>): Option<(nat, nat)> {
    match r
    case None => None
    case Some(p) => Some((number + scale * p.0, p.1))
  }

  lemma UnderMore(number: nat, scale: nat, b: nat, r: Option<(nat, nat)>)
    ensures Under(number, scale, Under(b, 128, r)) == Under(number + scale * b, 128 * scale, r)
  {
    if r.Some? {
      assert scale * (b + 128 * r.value.0) == scale * b + (128 * scale) * r.value.0;
    }
  }

  // How the loop of decode_tag_internal goes on from byte i.
  lemma TagStep(bytes: seq<Byte>, i: nat, number: nat, scale: nat)
    requires i < |bytes| && ParseTag(bytes, 0) == Under(number, scale, ParseTag(bytes, i))
    ensures i > 4 || (i == 4 && bytes[i] % 128 > 15) ==> ParseTag(bytes, 0).None?
    ensures !(i > 4 || (i == 4 && bytes[i] % 128 > 15)) ==>
      ParseTag(bytes, 0) == if bytes[i] < 128 then Some((number + scale * bytes[i], i + 1))
                            else Under(number + scale * (bytes[i] % 128), 128 * scale, ParseTag(bytes, i + 1))
  {
    UnderMore(number, scale, bytes[i] % 128, ParseTag(bytes, i + 1));
  }

  lemma TagBounds(bytes: seq<Byte>)
    ensures ParseTag(bytes, 0).Some? ==>
      var r := ParseTag(bytes, 0).value; r.0 < WORD && 0 < r.1 <= 5 && r.1 <= |bytes|
  {
    if ParseTag(bytes, 0).Some? {
      ParseTagBound(bytes, 0);
      TagLimitIs32Bits();
    }
  }

  lemma TagStart(bytes: seq<Byte>)
    ensures ParseTag(bytes, 0) == Under(0, 1, ParseTag(bytes, 0))
    ensures forall number: nat, scale: nat :: Under(number, scale, ParseTag(bytes, |bytes|)).None?
  {
  }

  /** The loop of decode_tag_internal */
  method DecodeTag(bytes: seq<Byte>) returns (r: Option<(nat, nat)>)
    ensures r == ParseTag(bytes, 0)
    ensures r.Some? ==> r.value.0 < WORD && 0 < r.value.1 <= 5 && r.value.1 <= |bytes|
  {
    hide ParseTag; hide Under;
    TagBounds(bytes);
    TagStart(bytes);
    var number: nat, i: nat, scale: nat := 0, 0, 1;
    while i < |bytes|
      invariant i <= |bytes| && ParseTag(bytes, 0) == Under(number, scale, ParseTag(bytes, i))
    {
      TagStep(bytes, i, number, scale);
      var lower := bytes[i];
      // shift is 7 * i
      if i > 4 || (i == 4 && lower % 128 > 15) {
        return None;
      }
      number := number + scale * (lower % 128);
      i := i + 1;
      if lower < 128 {
        return Some((number, i));
      }
      scale := 128 * scale;
    }
    return None;
  }

  lemma ParseIntFits(bytes: seq<Byte>, maxNibbles: nat)
    requires ParseInt(bytes, maxNibbles).Some?
    ensures |bytes| <= SSIZE_MAX
  {
  }

  class Stream {
    var bytes: seq<Byte>

    constructor ()
      ensures bytes == []
    {
      bytes := [];
    }

    /** evtag_encode_tag */
    method AddTag(tag: nat)
      requires tag < WORD
      modifies this
      ensures bytes == old(bytes) + TagBytes(tag)
    {
      var data := new Byte[5];
      var n := EncodeTag(data, tag);
      bytes := bytes + data[..n];
    }

    /** evtag_encode_int and evtag_encode_int64 */
    method AddInt(n: nat, width: nat)
      requires width == 4 || width == 8
      requires n < Pow16(2 * width)
      modifies this
      ensures |Nibbles(n)| <= 16 && bytes == old(bytes) + IntBytes(n)
    {
      var data := new Byte[width + 1];
      var len := EncodeInt(data, n);
      bytes := bytes + data[..len];
    }

    /** evtag_marshal */
    method Marshal(r: Record)
      requires Marshallable(r)
      modifies this
      ensures bytes == old(bytes) + RecordBytes(r)
    {
      ghost var was := bytes;
      AddTag(r.tag);
      Width32(|r.data|);
      AddInt(|r.data|, 4);
      bytes := bytes + r.data;
      hide TagBytes; hide IntBytes;
      Assoc(was, TagBytes(r.tag), IntBytes(|r.data|));
      Assoc(was, TagBytes(r.tag) + IntBytes(|r.data|), r.data);
    }

    /**
      evtag_unmarshal_header: the tag and the length, which comes back as an int and is
      never taken for the -1 of a failure. What it has read is gone even if it then fails.
    */
    method UnmarshalHeader() returns (res: int, tag: nat)
      requires |bytes| <= SIZE_MAX
      modifies this
      ensures res == -1 <==> ParseRecord(old(bytes)).None?
      ensures res != -1 ==>
                var h := ParseHeader(old(bytes)).value;
                && h.2 <= |old(bytes)| && tag == h.0 && res == h.1
                && bytes == old(bytes)[h.2..]
      ensures exists k :: 0 <= k <= |old(bytes)| && bytes == old(bytes)[k..]
    {
      hide ParseTag; hide ParseInt; hide Pow16;
      ghost var was := bytes;
      assert was == was[0..];
      var t := DecodeTag(bytes);
      if t.None? {
        return -1, 0;
      }
      bytes := bytes[t.value.1..];
      assert bytes == was[t.value.1..];
      var l := DecodeInt(bytes, 0, 8);
      assert bytes[0..] == bytes;
      if l.None? {
        return -1, 0;
      }
      ParseIntFits(bytes, 8);
      assert bytes[l.value.1..] == was[t.value.1 + l.value.1..];
      bytes := bytes[l.value.1..];
      if |bytes| < l.value.0 {
        return -1, 0;
      }
      return ToInt32(l.value.0), t.value.0;
    }

    /** evtag_unmarshal */
    method Unmarshal() returns (r: Option<Record>)
      requires |bytes| <= SIZE_MAX
      modifies this
      ensures r.Some? <==> ParseRecord(old(bytes)).Some?
      ensures r.Some? ==>
                var p := ParseRecord(old(bytes)).value;
                && r == Some(p.0) && p.1 <= |old(bytes)|
                && bytes == old(bytes)[p.1..]
    {
      ghost var was := bytes;
      var res, tag := UnmarshalHeader();
      if res == -1 {
        return None;
      }
      ghost var k := ParseHeader(was).value.2;
      hide ParseHeader;
      var len := res;
      assert was[k..][..len] == was[k..k + len];
      assert was[k..][len..] == was[k + len..];
      r := Some(Record(tag, bytes[..len]));
      bytes := bytes[len..];
    }

    /** evtag_consume */
    method Consume() returns (res: int)
      requires |bytes| <= SIZE_MAX
      modifies this
      ensures res == if ParseRecord(old(bytes)).Some? then 0 else -1
      ensures res == 0 ==> var n := ParseRecord(old(bytes)).value.1; n <= |old(bytes)| && bytes == old(bytes)[n..]
    {
      ghost var was := bytes;
      var h, tag := UnmarshalHeader();
      if h == -1 {
        return -1;
      }
      ghost var k := ParseHeader(was).value.2;
      hide ParseHeader;
      var len := h;
      assert was[k..][len..] == was[k + len..];
      bytes := bytes[len..];
      return 0;
    }

    /** evtag_peek_length, in 32-bit arithmetic */
    method PeekLength() returns (n: Option<nat>)
      requires |bytes| <= SIZE_MAX
      ensures n.Some? <==> ParseHeader(bytes).Some?
      ensures n.Some? ==> var h := ParseHeader(bytes).value; n.value == (h.1 + h.2) % WORD
      ensures ParseRecord(bytes).Some? ==> n == Some(ParseRecord(bytes).value.1)
    {
      hide ParseTag; hide ParseInt;
      var t := DecodeTag(bytes);
      if t.None? {
        return None;
      }
      var l := DecodeInt(bytes, t.value.1, 8);
      if l.None? {
        return None;
      }
      return Some((l.value.0 + l.value.1 + t.value.1) % WORD);
    }

    /** evtag_marshal_int and evtag_marshal_int64 */
    method MarshalInt(tag: nat, n: nat, width: nat)
      requires tag < WORD && (width == 4 || width == 8) && n < Pow16(2 * width)
      modifies this
      ensures |Nibbles(n)| <= 16
      ensures bytes == old(bytes) + RecordBytes(Record(tag, IntBytes(n)))
    {
      NibbleCount(n, 2 * width);
      var data := new Byte[width + 1];
      var len := EncodeInt(data, n);
      Marshal(Record(tag, data[..len]));
    }

    // The part of evtag_unmarshal_int behind the tag
    method TakeInt(width: nat) returns (r: Option<nat>)
      requires |bytes| <= SIZE_MAX && (width == 4 || width == 8)
      modifies this
      ensures r.Some? <==> ParseSized(old(bytes), width).Some?
      ensures r.Some? ==>
                var p := ParseSized(old(bytes), width).value;
                && r == Some(p.0) && p.1 <= |old(bytes)|
                && bytes == old(bytes)[p.1..]
    {
      ghost var was := bytes;
      var l := DecodeInt(bytes, 0, 8);
      assert bytes[0..] == bytes;
      if l.None? {
        return None;
      }
      var len := l.value.0;
      bytes := bytes[l.value.1..];
      if |bytes| < len {
        return None;
      }
      var i := DecodeInt(bytes, 0, 2 * width);
      assert bytes[0..] == bytes;
      assert was[l.value.1..][len..] == was[l.value.1 + len..];
      bytes := bytes[len..];
      if i.None? || i.value.1 > len {
        return None;
      }
      return Some(i.value.0);
    }

    /** evtag_unmarshal_int and evtag_unmarshal_int64, with the tag that is wanted */
    method UnmarshalInt(tag: nat, width: nat) returns (r: Option<nat>)
      requires |bytes| <= SIZE_MAX && (width == 4 || width == 8)
      modifies this
      ensures r.Some? <==> ParseTagged(old(bytes), tag, width).Some?
      ensures r.Some? ==>
                var p := ParseTagged(old(bytes), tag, width).value;
                && r == Some(p.0) && p.1 <= |old(bytes)|
                && bytes == old(bytes)[p.1..]
    {
      ghost var was := bytes;
      var t := DecodeTag(bytes);
      if t.None? {
        return None;
      }
      bytes := bytes[t.value.1..];
      if tag != t.value.0 {
        return None;
      }
      r := TakeInt(width);
      if r.Some? {
        ghost var k := ParseSized(was[t.value.1..], width).value.1;
        assert was[t.value.1..][k..] == was[t.value.1 + k..];
      }
    }
  }

  lemma {:induction false} Width32(n: nat)
    requires n < WORD
    ensures n < Pow16(2 * 4)
  {
    assert Pow16(8) == 16 * Pow16(7) == 256 * Pow16(6) == 4096 * Pow16(5) == 65536 * Pow16(4);
    assert Pow16(4) == 16 * Pow16(3) == 256 * Pow16(2) == 4096 * Pow16(1);
  }

  /** A list of records behind whatever the buffer holds. */
  method WriteAll(st: Stream, rs: seq<Record>)
    requires forall i | 0 <= i < |rs| :: Marshallable(rs[i])
    modifies st
    ensures st.bytes == old(st.bytes) + StreamBytes(rs)
  {
    hide RecordBytes;
    ghost var was := st.bytes;
    assert was + [] == was;
    for i := 0 to |rs|
      invariant st.bytes == was + StreamBytes(rs[..i])
    {
      StreamSnoc(rs, i);
      Assoc(was, StreamBytes(rs[..i]), RecordBytes(rs[i]));
      st.Marshal(rs[i]);
    }
    assert rs[..|rs|] == rs;
  }

  /**
    As many records as there are, read in order; what is behind them stays. It fails exactly
    if more than SSIZE_MAX bytes are behind the first tag.
  */
  method ReadAll(st: Stream, n: nat, ghost rs: seq<Record>, ghost rest: seq<Byte>) returns (r: Option<seq<Record>>)
    requires |rs| == n && forall i | 0 <= i < |rs| :: Marshallable(rs[i])
    requires st.bytes == StreamBytes(rs) + rest && |st.bytes| <= SIZE_MAX
    modifies st
    ensures r.Some? <==> AllDecodable(rs, rest)
    ensures r.Some? ==> r.value == rs && st.bytes == rest
  {
    hide RecordBytes; hide ParseRecord; hide Decodable;
    var read := [];
    assert rs[0..] == rs;
    for i := 0 to n
      invariant read == rs[..i] && st.bytes == StreamBytes(rs[i..]) + rest && |st.bytes| <= SIZE_MAX
      invariant i > 0 ==> AllDecodable(rs, rest)
      invariant AllDecodable(rs, rest) ==> AllDecodable(rs[i..], rest)
    {
      assert rs[i..][0] == rs[i] && rs[i..][1..] == rs[i + 1..];
      Assoc(RecordBytes(rs[i]), StreamBytes(rs[i + 1..]), rest);
      RecordReads(rs[i], StreamBytes(rs[i + 1..]) + rest);
      var one := st.Unmarshal();
      if one.None? {
        return None;
      }
      read := read + [one.value];
      DecodableNext(rs[i..], rest);
    }
    assert [] + rest == rest;
    return Some(read);
  }

  lemma {:induction false} StreamConcat(a: seq<Record>, b: seq<Record>)
    requires forall i | 0 <= i < |a| :: Marshallable(a[i])
    requires forall i | 0 <= i < |b| :: Marshallable(b[i])
    ensures StreamBytes(a + b) == StreamBytes(a) + StreamBytes(b)
    decreases |a|
  {
    hide RecordBytes;
    if |a| == 0 {
      assert a + b == b;
    } else {
      assert (a + b)[1..] == a[1..] + b;
      StreamConcat(a[1..], b);
      Assoc(RecordBytes(a[0]), StreamBytes(a[1..]), StreamBytes(b));
    }
  }

  lemma {:induction false} StreamSnoc(rs: seq<Record>, i: nat)
    requires i < |rs| && forall j | 0 <= j < |rs| :: Marshallable(rs[j])
    ensures StreamBytes(rs[..i + 1]) == StreamBytes(rs[..i]) + RecordBytes(rs[i])
  {
    assert rs[..i + 1] == rs[..i] + [rs[i]];
    StreamConcat(rs[..i], [rs[i]]);
    assert [rs[i]][1..] == [];
    assert RecordBytes(rs[i]) + [] == RecordBytes(rs[i]);
  }

  /** The length of a record is known as soon as its header is there, whatever of the rest has come. */
  method PeekEarly(st: Stream, ghost r: Record, ghost k: nat) returns (n: Option<nat>)
    requires Marshallable(r) && k <= |RecordBytes(r)| <= SSIZE_MAX && st.bytes == RecordBytes(r)[..k]
    ensures n.Some? <==> k >= |RecordBytes(r)| - |r.data|
    ensures n.Some? ==> n.value == |RecordBytes(r)|
  {
    HeaderArrives(r, k);
    RecordSplits(r, []);
    hide ParseHeader; hide RecordBytes; hide TagBytes; hide IntBytes;
    n := st.PeekLength();
  }

  /**
    A 32- or 64-bit integer at the front comes back as it went, under its tag; what is behind
    it stays. It fails exactly if more than SSIZE_MAX bytes are behind the tag.
  */
  method ReadInt(st: Stream, tag: nat, width: nat, ghost n: nat, ghost rest: seq<Byte>) returns (r: Option<nat>)
    requires tag < WORD && (width == 4 || width == 8) && n < Pow16(2 * width) && |Nibbles(n)| <= 16
    requires st.bytes == RecordBytes(Record(tag, IntBytes(n))) + rest && |st.bytes| <= SIZE_MAX
    modifies st
    ensures r == if Decodable(Record(tag, IntBytes(n)), rest) then Some(n) else None
    ensures r.Some? ==> st.bytes == rest
  {
    NibbleCount(n, 2 * width);
    ghost var record := Record(tag, IntBytes(n));
    TaggedReads(tag, tag, n, width, rest);
    hide ParseTagged; hide RecordBytes; hide Decodable;
    assert st.bytes[|RecordBytes(record)|..] == rest;
    r := st.UnmarshalInt(tag, width);
  }
}
