/**
  The tagged wire format of event_tagging.c: integers as a count and that many nibbles,
  low nibble first; tags seven bits at a time, low bits first; records of a tag, a length
  and a payload.
*/
module Tagging {
  import opened Basics

  // ------------------------------------------------------------------------
  // Integers

  // The significant nibbles, the least first.
  function Nibbles(n: nat): (s: seq<nat>)
    ensures forall i | 0 <= i < |s| :: s[i] < 16
  {
    if n == 0 then [] else [n % 16] + Nibbles(n / 16)
  }

  // The number that nibbles stand for.
  function Number(s: seq<nat>): (n: nat) {
    if |s| == 0 then 0 else s[0] + 16 * Number(s[1..])
  }

  lemma {:induction false} NumberOfNibbles(n: nat)
    ensures Number(Nibbles(n)) == n
  {
    if n > 0 {
      NumberOfNibbles(n / 16);
      assert Nibbles(n)[1..] == Nibbles(n / 16);
    }
  }

  function Pow16(k: nat): (p: nat)
    ensures p > 0
  {
    if k == 0 then 1 else 16 * Pow16(k - 1)
  }

  lemma {:induction false} NibbleCount(n: nat, k: nat)
    requires n < Pow16(k)
    ensures |Nibbles(n)| <= k
    decreases k
  {
    if k > 0 && n > 0 {
      NibbleCount(n / 16, k - 1);
    }
  }

  // Two nibbles to a byte, the first one high; a last odd one is padded with zero.
  function Pack(s: seq<nat>): (r: seq<Byte>)
    requires forall i | 0 <= i < |s| :: s[i] < 16
    ensures |r| == (|s| + 1) / 2
  {
    if |s| == 0 then []
    else if |s| == 1 then [s[0] * 16]
    else [s[0] * 16 + s[1]] + Pack(s[2..])
  }

  // Nibble number k of some bytes.
  function NibbleAt(bytes: seq<Byte>, k: nat): (n: nat)
    requires k / 2 < |bytes|
    ensures n < 16
  {
    if k % 2 == 1 then bytes[k / 2] % 16 else bytes[k / 2] / 16
  }

  lemma {:induction false} PackAt(s: seq<nat>, k: nat)
    requires (forall i | 0 <= i < |s| :: s[i] < 16) && k / 2 < |Pack(s)|
    ensures NibbleAt(Pack(s), k) == if k < |s| then s[k] else 0
    decreases |s|
  {
    if k >= 2 {
      PackAt(s[2..], k - 2);
    }
  }

  // What encode_int_internal writes.
  function IntNibbles(n: nat): (s: seq<nat>)
    requires |Nibbles(n)| <= 16
    ensures forall i | 0 <= i < |s| :: s[i] < 16
  {
    [if n == 0 then 0 else |Nibbles(n)| - 1] + Nibbles(n)
  }

  function IntBytes(n: nat): (r: seq<Byte>)
    requires |Nibbles(n)| <= 16
    ensures 0 < |r| <= 9
  {
    Pack(IntNibbles(n))
  }

  // The number in the nibbles j to m of some bytes.
  function NumberAt(bytes: seq<Byte>, j: nat, m: nat): (n: nat)
    requires m / 2 < |bytes|
    decreases m + 1 - j
  {
    if j > m then 0 else NibbleAt(bytes, j) + 16 * NumberAt(bytes, j + 1, m)
  }

  lemma {:induction false} NumberAtBound(bytes: seq<Byte>, j: nat, m: nat)
    requires m / 2 < |bytes| && j <= m + 1
    ensures NumberAt(bytes, j, m) < Pow16(m + 1 - j)
    decreases m + 1 - j
  {
    if j <= m {
      NumberAtBound(bytes, j + 1, m);
    }
  }

  /**
    What decode_int_internal makes of some bytes: the number and the bytes it takes. The
    length is an ev_ssize_t there, so that more than SSIZE_MAX bytes are taken for none.
  */
  function ParseInt(bytes: seq<Byte>, maxNibbles: nat): (r: Option<(nat, nat)>) {
    if |bytes| == 0 || |bytes| > SSIZE_MAX then None
    else
      var m := bytes[0] / 16 + 1;
      if m > maxNibbles || m / 2 + 1 > |bytes| then None
      else Some((NumberAt(bytes, 1, m), m / 2 + 1))
  }

  lemma {:induction false} NumberAtReads(bytes: seq<Byte>, s: seq<nat>, j: nat, m: nat)
    requires m / 2 < |bytes| && 0 < j <= m + 1 && |s| == m
    requires forall k | j <= k <= m :: NibbleAt(bytes, k) == s[k - 1]
    ensures NumberAt(bytes, j, m) == Number(s[j - 1..])
    decreases m + 1 - j
  {
    if j <= m {
      NumberAtReads(bytes, s, j + 1, m);
      assert s[j - 1..][1..] == s[j..];
      assert s[j - 1..][0] == s[j - 1];
    }
  }

  /** Integers round-trip, whatever follows them, exactly if that is not too long. */
  lemma {:induction false} IntReads(n: nat, maxNibbles: nat, rest: seq<Byte>)
    requires |Nibbles(n)| <= maxNibbles && 0 < maxNibbles <= 16
    ensures ParseInt(IntBytes(n) + rest, maxNibbles)
            == if |IntBytes(n)| + |rest| <= SSIZE_MAX then Some((n, |IntBytes(n)|)) else None
  {
    var e := IntNibbles(n);
    var bytes := IntBytes(n) + rest;
    var m := if n == 0 then 1 else |Nibbles(n)|;
    forall k | 0 <= k <= m ensures NibbleAt(bytes, k) == if k < |e| then e[k] else 0 {
      PackAt(e, k);
      assert NibbleAt(bytes, k) == NibbleAt(IntBytes(n), k);
    }
    assert NibbleAt(bytes, 0) == m - 1;
    if n == 0 {
      assert NumberAt(bytes, 1, 1) == NibbleAt(bytes, 1) + 16 * NumberAt(bytes, 2, 1);
    } else {
      var s := Nibbles(n);
      NumberAtReads(bytes, s, 1, m);
      NumberOfNibbles(n);
      assert s[0..] == s;
    }
  }

  // ------------------------------------------------------------------------
  // Tags

  function TagBytes(tag: nat): (r: seq<Byte>)
    ensures |r| > 0
  {
    if tag < 128 then [tag] else [tag % 128 + 128] + TagBytes(tag / 128)
  }

  /** What decode_tag_internal finds from byte i on: the rest of the tag and where it ends. */
  function ParseTag(bytes: seq<Byte>, i: nat): (r: Option<(nat, nat)>)
    decreases |bytes| - i
  {
    if i >= |bytes| || i > 4 || (i == 4 && bytes[i] % 128 > 15) then None
    else if bytes[i] < 128 then Some((bytes[i], i + 1))
    else match ParseTag(bytes, i + 1)
      case None => None
      case Some(r) => Some((bytes[i] % 128 + 128 * r.0, r.1))
  }

  function Pow128(k: nat): (p: nat)
    ensures p > 0
  {
    if k == 0 then 1 else 128 * Pow128(k - 1)
  }

  // The tags that may still follow i bytes of a 32-bit tag.
  function TagLimit(i: nat): (n: nat)
    requires i <= 4
  {
    16 * Pow128(4 - i)
  }

  /** Tags round-trip, whatever is around them. */
  lemma {:induction false} TagReads(bytes: seq<Byte>, i: nat, tag: nat)
    requires i <= 4 && tag < TagLimit(i) && i + |TagBytes(tag)| <= |bytes|
              && bytes[i..i + |TagBytes(tag)|] == TagBytes(tag)
    ensures ParseTag(bytes, i) == Some((tag, i + |TagBytes(tag)|))
    ensures i + |TagBytes(tag)| <= 5
    decreases 4 - i
  {
    var t := TagBytes(tag);
    assert bytes[i] == bytes[i..i + |t|][0] == t[0];
    if tag >= 128 {
      assert t[1..] == TagBytes(tag / 128);
      assert bytes[i + 1..i + |t|] == bytes[i..i + |t|][1..];
      assert i < 4;
      TagReads(bytes, i + 1, tag / 128);
    }
  }

  lemma TagLimitIs32Bits()
    ensures TagLimit(0) == WORD
  {
    assert Pow128(4) == 128 * Pow128(3) == 128 * (128 * Pow128(2)) == 128 * (128 * (128 * Pow128(1)));
  }

  /** A tag that is read fits 32 bits. */
  lemma {:induction false} ParseTagBound(bytes: seq<Byte>, i: nat)
    requires i <= 4 && ParseTag(bytes, i).Some?
    ensures ParseTag(bytes, i).value.0 < TagLimit(i) && i < ParseTag(bytes, i).value.1 <= 5
              && ParseTag(bytes, i).value.1 <= |bytes|
    decreases 4 - i
  {
    if bytes[i] >= 128 {
      if i == 4 {
        assert ParseTag(bytes, 5).None?;
      } else {
        ParseTagBound(bytes, i + 1);
      }
    }
  }

  // ------------------------------------------------------------------------
  // Records

  datatype Record = Record(tag: nat, data: seq<Byte>)

  ghost predicate Marshallable(r: Record) {
    r.tag < WORD && |r.data| < WORD
  }

  lemma {:induction false} Nibbles32(n: nat)
    requires n < WORD
    ensures |Nibbles(n)| <= 8
  {
    assert Pow16(8) == 16 * Pow16(7) == 256 * Pow16(6) == 4096 * Pow16(5) == 65536 * Pow16(4);
    assert Pow16(4) == 16 * Pow16(3) == 256 * Pow16(2) == 4096 * Pow16(1);
    NibbleCount(n, 8);
  }

  ghost function RecordBytes(r: Record): (b: seq<Byte>)
    requires Marshallable(r)
  {
    Nibbles32(|r.data|);
    TagBytes(r.tag) + IntBytes(|r.data|) + r.data
  }

  ghost function StreamBytes(rs: seq<Record>): (b: seq<Byte>)
    requires forall i | 0 <= i < |rs| :: Marshallable(rs[i])
  {
    if |rs| == 0 then [] else RecordBytes(rs[0]) + StreamBytes(rs[1..])
  }

  /** The tag, the length of the payload and the length of the header in front of it. */
  function ParseHeader(bytes: seq<Byte>): (r: Option<(nat, nat, nat)>) {
    match ParseTag(bytes, 0)
    case None => None
    case Some(t) =>
      if t.1 > |bytes| then None
      else match ParseInt(bytes[t.1..], 8)
        case None => None
        case Some(l) => Some((t.0, l.0, t.1 + l.1))
  }

  /** The first record of a stream and its length there. */
  function ParseRecord(bytes: seq<Byte>): (r: Option<(Record, nat)>) {
    match ParseHeader(bytes)
    case None => None
    case Some(h) =>
      if h.2 + h.1 > |bytes| then None
      else Some((Record(h.0, bytes[h.2..h.2 + h.1]), h.2 + h.1))
  }

  // A tag that is cut short is not read.
  lemma {:induction false} TagCut(bytes: seq<Byte>, i: nat, tag: nat)
    requires i <= |bytes| && |bytes| - i < |TagBytes(tag)| && bytes[i..] == TagBytes(tag)[..|bytes| - i]
    ensures ParseTag(bytes, i).None?
    decreases |bytes| - i
  {
    if i < |bytes| {
      var t := TagBytes(tag);
      assert bytes[i] == bytes[i..][0] == t[0];
      assert tag >= 128;
      assert t[1..] == TagBytes(tag / 128);
      assert bytes[i + 1..] == bytes[i..][1..] == t[1..][..|bytes| - (i + 1)];
      TagCut(bytes, i + 1, tag / 128);
    }
  }

  // Nor is an integer.
  lemma {:induction false} IntCut(n: nat, k: nat, maxNibbles: nat)
    requires |Nibbles(n)| <= 16 && k < |IntBytes(n)|
    ensures ParseInt(IntBytes(n)[..k], maxNibbles).None?
  {
    if k > 0 {
      var e := IntNibbles(n);
      PackAt(e, 0);
      assert NibbleAt(IntBytes(n), 0) == IntBytes(n)[0] / 16;
      assert IntBytes(n)[..k][0] == IntBytes(n)[0];
      NibblesOfZero(n);
    }
  }

  lemma NibblesOfZero(n: nat)
    ensures n == 0 <==> |Nibbles(n)| == 0
  {
  }

  // No more bytes are behind the tag of the record than an ev_ssize_t can count.
  ghost predicate Decodable(r: Record, rest: seq<Byte>)
    requires Marshallable(r)
  {
    |RecordBytes(r)| - |TagBytes(r.tag)| + |rest| <= SSIZE_MAX
  }

  lemma {:induction false} HeaderReads(r: Record, rest: seq<Byte>)
    requires Marshallable(r)
    ensures |Nibbles(|r.data|)| <= 8
    ensures ParseHeader(RecordBytes(r) + rest)
            == if Decodable(r, rest) then Some((r.tag, |r.data|, |TagBytes(r.tag)| + |IntBytes(|r.data|)|)) else None
  {
    RecordSplits(r, rest);
    var t, l := TagBytes(r.tag), IntBytes(|r.data|);
    TagAhead(r.tag, l + (r.data + rest));
    IntReads(|r.data|, 8, r.data + rest);
    hide TagBytes; hide IntBytes; hide ParseInt; hide ParseTag; hide RecordBytes;
    assert (t + (l + (r.data + rest)))[|t|..] == l + (r.data + rest);
  }

  /** Of a record that arrives byte by byte, the header is read as soon as it is there, and not before. */
  lemma {:induction false} HeaderArrives(r: Record, k: nat)
    requires Marshallable(r) && k <= |RecordBytes(r)| <= SSIZE_MAX
    ensures |Nibbles(|r.data|)| <= 8
    ensures var h := |TagBytes(r.tag)| + |IntBytes(|r.data|)|;
            ParseHeader(RecordBytes(r)[..k]) == if k < h then None else Some((r.tag, |r.data|, h))
  {
    hide RecordBytes; hide ParseTag; hide ParseInt; hide TagBytes; hide IntBytes;
    RecordSplits(r, []);
    var t, l := TagBytes(r.tag), IntBytes(|r.data|);
    var h, bytes := |t| + |l|, RecordBytes(r)[..k];
    FrontOf(t, l, r.data, RecordBytes(r), k);
    if k < |t| {
      assert bytes[0..] == bytes;
      TagCut(bytes, 0, r.tag);
    } else {
      var s := if k < h then l[..k - |t|] else l + r.data[..k - h];
      hide ParseHeader;
      TagAhead(r.tag, s);
      HeaderIs(t, s, r.tag);
      if k < h {
        IntCut(|r.data|, k - |t|, 8);
      } else {
        IntReads(|r.data|, 8, r.data[..k - h]);
      }
    }
  }

  lemma FrontOf(t: seq<Byte>, l: seq<Byte>, d: seq<Byte>, all: seq<Byte>, k: nat)
    requires all + [] == t + (l + (d + [])) && k <= |all|
    ensures |all| == |t| + |l| + |d|
    ensures k < |t| ==> all[..k] == t[..k]
    ensures |t| <= k < |t| + |l| ==> all[..k] == t + l[..k - |t|]
    ensures k >= |t| + |l| ==> all[..k] == t + (l + d[..k - |t| - |l|])
  {
    assert all + [] == all && d + [] == d;
    assert all == t + (l + d);
  }

  lemma HeaderIs(t: seq<Byte>, s: seq<Byte>, tag: nat)
    requires ParseTag(t + s, 0) == Some((tag, |t|))
    ensures ParseHeader(t + s)
            == match ParseInt(s, 8) case None => None case Some(l) => Some((tag, l.0, |t| + l.1))
  {
    Behind(t, s);
    hide ParseTag; hide ParseInt;
  }

  /**
    One record is read back exactly, and no byte behind it is touched, if and only if it
    and what follows it are not too long.
  */
  lemma {:induction false} RecordReads(r: Record, rest: seq<Byte>)
    requires Marshallable(r)
    ensures ParseRecord(RecordBytes(r) + rest) == if Decodable(r, rest) then Some((r, |RecordBytes(r)|)) else None
    ensures (RecordBytes(r) + rest)[|RecordBytes(r)|..] == rest
  {
    HeaderReads(r, rest);
    var h := |TagBytes(r.tag)| + |IntBytes(|r.data|)|;
    var bytes := RecordBytes(r) + rest;
    hide TagBytes; hide IntBytes; hide ParseHeader; hide Decodable;
    assert bytes[h..h + |r.data|] == r.data;
  }

  /** Two gigabytes behind a record, and it cannot be read, although nothing is wrong with it. */
  lemma {:induction false} TooMuchBehind(r: Record, rest: seq<Byte>)
    requires Marshallable(r) && |rest| == 0x8000_0000
    ensures ParseRecord(RecordBytes(r) + rest).None?
    ensures |r.data| < 1000 ==> ParseRecord(RecordBytes(r)) == Some((r, |RecordBytes(r)|))
  {
    RecordReads(r, rest);
    RecordReads(r, []);
    RecordSplits(r, []);
    assert RecordBytes(r) + [] == RecordBytes(r);
    hide ParseRecord; hide TagBytes; hide IntBytes;
  }

  // Reading n records one after another.
  function ParseStream(bytes: seq<Byte>, n: nat): (r: Option<(seq<Record>, seq<Byte>)>)
    decreases n
  {
    if n == 0 then Some(([], bytes))
    else match ParseRecord(bytes)
      case None => None
      case Some(p) =>
        if p.1 > |bytes| then None
        else match ParseStream(bytes[p.1..], n - 1)
          case None => None
          case Some(q) => Some(([p.0] + q.0, q.1))
  }

  // The same of a whole list: its first record is the one with most behind it.
  ghost predicate AllDecodable(rs: seq<Record>, rest: seq<Byte>)
    requires forall i | 0 <= i < |rs| :: Marshallable(rs[i])
  {
    |rs| > 0 ==> Decodable(rs[0], StreamBytes(rs[1..]) + rest)
  }

  lemma {:induction false} DecodableNext(rs: seq<Record>, rest: seq<Byte>)
    requires forall i | 0 <= i < |rs| :: Marshallable(rs[i])
    requires |rs| > 0 && AllDecodable(rs, rest)
    ensures AllDecodable(rs[1..], rest)
  {
    RecordSplits(rs[0], []);
    if |rs| > 1 {
      RecordSplits(rs[1..][0], []);
    }
    hide RecordBytes; hide TagBytes; hide IntBytes;
  }

  /**
    Any list of records is recovered in order, and what follows the list is left, if and
    only if it is not too long.
  */
  lemma {:induction false} StreamReads(rs: seq<Record>, rest: seq<Byte>)
    requires forall i | 0 <= i < |rs| :: Marshallable(rs[i])
    ensures ParseStream(StreamBytes(rs) + rest, |rs|) == if AllDecodable(rs, rest) then Some((rs, rest)) else None
    decreases |rs|
  {
    hide ParseStream; hide ParseRecord; hide RecordBytes; hide Decodable;
    if |rs| == 0 {
      assert StreamBytes(rs) + rest == rest;
      NoneRead(rest);
    } else {
      var head, tail := RecordBytes(rs[0]), StreamBytes(rs[1..]) + rest;
      Assoc(head, StreamBytes(rs[1..]), rest);
      RecordReads(rs[0], tail);
      if AllDecodable(rs, rest) {
        DecodableNext(rs, rest);
        StreamReads(rs[1..], rest);
        assert rs == [rs[0]] + rs[1..];
        OneMore(StreamBytes(rs) + rest, rs[0], |head|, rs[1..], tail, rest);
      } else {
        NoMore(StreamBytes(rs) + rest, |rs|);
      }
    }
  }

  lemma NoneRead(bytes: seq<Byte>)
    ensures ParseStream(bytes, 0) == Some(([], bytes))
  {
  }

  lemma NoMore(bytes: seq<Byte>, n: nat)
    requires n > 0 && ParseRecord(bytes).None?
    ensures ParseStream(bytes, n).None?
  {
    hide ParseRecord;
  }

  lemma OneMore(bytes: seq<Byte>, r: Record, n: nat, rs: seq<Record>, tail: seq<Byte>, rest: seq<Byte>)
    requires ParseRecord(bytes) == Some((r, n)) && n <= |bytes| && bytes[n..] == tail
    requires ParseStream(tail, |rs|) == Some((rs, rest))
    ensures ParseStream(bytes, |rs| + 1) == Some(([r] + rs, rest))
  {
    hide ParseRecord;
  }

  /** An integer as the payload of a record whose tag is off: its value and where it ends. */
  function ParseSized(bytes: seq<Byte>, width: nat): (r: Option<(nat, nat)>) {
    match ParseInt(bytes, 8)
    case None => None
    case Some(l) =>
      if l.1 + l.0 > |bytes| then None
      else match ParseInt(bytes[l.1..], 2 * width)
        case None => None
        case Some(i) => if i.1 > l.0 then None else Some((i.0, l.1 + l.0))
  }

  function ParseTagged(bytes: seq<Byte>, tag: nat, width: nat): (r: Option<(nat, nat)>) {
    match ParseTag(bytes, 0)
    case None => None
    case Some(t) =>
      if t.0 != tag || t.1 > |bytes| then None
      else match ParseSized(bytes[t.1..], width)
        case None => None
        case Some(i) => Some((i.0, t.1 + i.1))
  }

  /** A marshalled integer is read back under its tag, and under no other, if what is behind it is not too long. */
  lemma {:induction false} TaggedReads(tag: nat, other: nat, n: nat, width: nat, rest: seq<Byte>)
    requires tag < WORD && 0 < width <= 8 && |Nibbles(n)| <= 2 * width
    ensures var record := Record(tag, IntBytes(n));
            ParseTagged(RecordBytes(record) + rest, other, width)
            == if tag == other && Decodable(record, rest) then Some((n, |RecordBytes(record)|)) else None
  {
    var record := Record(tag, IntBytes(n));
    var data := IntBytes(n);
    Nibbles32(|data|);
    assert Marshallable(record);
    assert tag < WORD;
    hide *;
    var t, l := TagBytes(tag), IntBytes(|data|);
    TagAhead(tag, l + (data + rest));
    SizedReads(n, width, rest);
    RecordSplits(record, rest);
    DecodableIs(record, rest);
    var r := if |l| + |data| + |rest| <= SSIZE_MAX then Some((n, |l| + |data|)) else None;
    TaggedIs(t, l + (data + rest), tag, other, width, r);
  }

  lemma Behind(a: seq<Byte>, b: seq<Byte>)
    ensures |a| <= |a + b| && (a + b)[|a|..] == b
  {
  }

  lemma DecodableIs(r: Record, rest: seq<Byte>)
    requires Marshallable(r)
    ensures |Nibbles(|r.data|)| <= 8
    ensures Decodable(r, rest) <==> |IntBytes(|r.data|)| + |r.data| + |rest| <= SSIZE_MAX
  {
    RecordSplits(r, rest);
    hide TagBytes; hide IntBytes; hide RecordBytes;
  }

  lemma TaggedIs(t: seq<Byte>, s: seq<Byte>, tag: nat, other: nat, width: nat, r: Option<(nat, nat)>)
    requires ParseTag(t + s, 0) == Some((tag, |t|)) && ParseSized(s, width) == r
    ensures ParseTagged(t + s, other, width)
            == if tag == other && r.Some? then Some((r.value.0, |t| + r.value.1)) else None
  {
    Behind(t, s);
    hide ParseTag; hide ParseSized;
  }

  lemma {:induction false} SizedReads(n: nat, width: nat, rest: seq<Byte>)
    requires 0 < width <= 8 && |Nibbles(n)| <= 2 * width
    ensures |Nibbles(|IntBytes(n)|)| <= 8
    ensures var k := |IntBytes(|IntBytes(n)|)| + |IntBytes(n)|;
            ParseSized(IntBytes(|IntBytes(n)|) + (IntBytes(n) + rest), width)
            == if k + |rest| <= SSIZE_MAX then Some((n, k)) else None
  {
    var data := IntBytes(n);
    Nibbles32(|data|);
    var l := IntBytes(|data|);
    IntReads(|data|, 8, data + rest);
    IntReads(n, 2 * width, rest);
    hide IntBytes; hide ParseInt;
    assert (l + (data + rest))[|l|..] == data + rest;
  }

  lemma {:induction false} TagAhead(tag: nat, rest: seq<Byte>)
    requires tag < WORD
    ensures ParseTag(TagBytes(tag) + rest, 0) == Some((tag, |TagBytes(tag)|))
  {
    var bytes := TagBytes(tag) + rest;
    assert bytes[0..0 + |TagBytes(tag)|] == TagBytes(tag);
    TagLimitIs32Bits();
    TagReads(bytes, 0, tag);
  }

  lemma {:induction false} RecordSplits(r: Record, rest: seq<Byte>)
    requires Marshallable(r)
    ensures |Nibbles(|r.data|)| <= 8
    ensures RecordBytes(r) + rest == TagBytes(r.tag) + (IntBytes(|r.data|) + (r.data + rest))
    ensures |RecordBytes(r)| == |TagBytes(r.tag)| + |IntBytes(|r.data|)| + |r.data|
  {
    Nibbles32(|r.data|);
    hide TagBytes; hide IntBytes;
    Assoc(TagBytes(r.tag) + IntBytes(|r.data|), r.data, rest);
    Assoc(TagBytes(r.tag), IntBytes(|r.data|), r.data + rest);
  }
}
