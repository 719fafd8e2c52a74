/**
  Names in DNS messages (evdns.c, name_parse and dnsname_to_labels): length-prefixed
  labels, ended by a zero byte or by a pointer to an earlier name, as in sections 3.1
  and 4.1.4 of RFC 1035.
*/
module DnsNames {
  import opened Basics

  const DOT: Byte := 46

  // ------------------------------------------------------------------------
  // Dotted names and their labels

  function Split(s: seq<Byte>): (ls: seq<seq<Byte>>)
    ensures |ls| > 0
  {
    if |s| == 0 then [[]]
    else if s[0] == DOT then [[]] + Split(s[1..])
    else
      var r := Split(s[1..]);
      [[s[0]] + r[0]] + r[1..]
  }

  function Join(ls: seq<seq<Byte>>): (s: seq<Byte>) {
    if |ls| == 0 then [] else if |ls| == 1 then ls[0] else ls[0] + [DOT] + Join(ls[1..])
  }

  lemma {:induction false} JoinSplit(s: seq<Byte>)
    ensures Join(Split(s)) == s
  {
    if |s| > 0 {
      JoinSplit(s[1..]);
      var r := Split(s[1..]);
      if s[0] == DOT {
        assert ([[]] + r)[1..] == r;
        assert Join([[]] + r) == [] + [DOT] + Join(r);
      } else {
        var ls := [[s[0]] + r[0]] + r[1..];
        if |r| > 1 {
          assert ls[1..] == r[1..];
          assert Join(ls) == [s[0]] + r[0] + [DOT] + Join(r[1..]);
          assert Join(r) == r[0] + [DOT] + Join(r[1..]);
        }
      }
    }
  }

  // Cutting at the first dot.
  lemma {:induction false} SplitAtDot(s: seq<Byte>, k: nat)
    requires k <= |s| && DOT !in s[..k] && (k < |s| ==> s[k] == DOT)
    ensures Split(s) == if k == |s| then [s] else [s[..k]] + Split(s[k + 1..])
    decreases k
  {
    if k == 0 {
      if |s| > 0 {
        assert s[..0] == [];
      }
    } else {
      assert s[0] == s[..k][0] && s[0] != DOT;
      assert s[1..][..k - 1] == s[..k][1..];
      SplitAtDot(s[1..], k - 1);
      if k < |s| {
        assert s[1..][k..] == s[k + 1..];
        assert [s[0]] + s[1..][..k - 1] == s[..k];
        var r := Split(s[1..]);
        assert r == [s[1..][..k - 1]] + Split(s[k + 1..]);
        assert r[1..] == Split(s[k + 1..]);
      } else {
        assert [s[0]] + s[1..] == s;
        assert Split(s[1..])[1..] == [];
      }
    }
  }

  // The labels a reader sees: an empty label reads as the end of the name.
  function UntilEmpty(ls: seq<seq<Byte>>): (r: seq<seq<Byte>>) {
    if |ls| == 0 || |ls[0]| == 0 then [] else [ls[0]] + UntilEmpty(ls[1..])
  }

  ghost predicate NoneEmpty(ls: seq<seq<Byte>>) {
    forall i | 0 <= i < |ls| :: |ls[i]| > 0
  }

  lemma {:induction false} UntilEmptyAll(ls: seq<seq<Byte>>)
    requires NoneEmpty(ls)
    ensures UntilEmpty(ls) == ls
  {
    if |ls| > 0 {
      UntilEmptyAll(ls[1..]);
    }
  }

  lemma {:induction false} UntilEmptyNoneEmpty(ls: seq<seq<Byte>>)
    ensures NoneEmpty(UntilEmpty(ls)) && |UntilEmpty(ls)| <= |ls|
  {
    if |ls| > 0 && |ls[0]| > 0 {
      UntilEmptyNoneEmpty(ls[1..]);
    }
  }

  // The name a reader sees.
  function Canonical(name: seq<Byte>): seq<Byte> {
    Join(UntilEmpty(Split(name)))
  }

  // ------------------------------------------------------------------------
  // The wire form

  // The offset a pointer at j designates.
  function Target(p: seq<Byte>, j: nat): (t: nat)
    requires j + 1 < |p|
    ensures t < 0x4000
  {
    var high: int := p[j];
    256 * (high % 64) + p[j + 1]
  }

  /**
    The message p holds, from j on, the labels ls; the result is the index behind
    them, or -1. Every pointer leads to before `floor`, where this stretch of labels
    began, so that no chain of pointers can be longer than the message.
  */
  ghost function Ends(p: seq<Byte>, floor: nat, j: nat, ls: seq<seq<Byte>>): (e: int)
    ensures e == -1 || j < e <= |p|
    decreases |ls|, floor
  {
    if j >= |p| then -1
    else if p[j] == 0 then (if |ls| == 0 then j + 1 else -1)
    else if p[j] >= 64 then
      if j + 1 < |p| && Target(p, j) < floor && Ends(p, Target(p, j), Target(p, j), ls) >= 0 then j + 2 else -1
    else if |ls| > 0 && j + 1 + p[j] <= |p| && p[j + 1..j + 1 + p[j]] == ls[0] then
      Ends(p, floor, j + 1 + p[j], ls[1..])
    else -1
  }

  lemma {:induction false} EndsExtend(p: seq<Byte>, q: seq<Byte>, floor: nat, j: nat, ls: seq<seq<Byte>>)
    requires p <= q && Ends(p, floor, j, ls) >= 0
    ensures Ends(q, floor, j, ls) == Ends(p, floor, j, ls)
    decreases |ls|, floor
  {
    assert p[j] == q[j];
    if p[j] == 0 {
    } else if p[j] >= 64 {
      assert p[j + 1] == q[j + 1];
      EndsExtend(p, q, Target(p, j), Target(p, j), ls);
    } else {
      assert p[j + 1..j + 1 + p[j]] == q[j + 1..j + 1 + p[j]];
      EndsExtend(p, q, floor, j + 1 + p[j], ls[1..]);
    }
  }

  lemma {:induction false} EndsHigher(p: seq<Byte>, floor: nat, higher: nat, j: nat, ls: seq<seq<Byte>>)
    requires floor <= higher && Ends(p, floor, j, ls) >= 0
    ensures Ends(p, higher, j, ls) == Ends(p, floor, j, ls)
    decreases |ls|
  {
    if p[j] != 0 && p[j] < 64 {
      EndsHigher(p, floor, higher, j + 1 + p[j], ls[1..]);
    }
  }

  // The labels written out one after another, not yet ended.
  ghost function LabelBytes(ls: seq<seq<Byte>>): (s: seq<Byte>)
    requires forall i | 0 <= i < |ls| :: |ls[i]| <= 63
  {
    if |ls| == 0 then [] else [|ls[0]|] + ls[0] + LabelBytes(ls[1..])
  }

  lemma {:induction false} EndsStep(p: seq<Byte>, floor: nat, j: nat, lab: seq<Byte>, rest: seq<seq<Byte>>)
    requires 0 < |lab| <= 63 && j + 1 + |lab| <= |p|
    requires p[j] == |lab| && p[j + 1..j + 1 + |lab|] == lab
    ensures Ends(p, floor, j, [lab] + rest) == Ends(p, floor, j + 1 + |lab|, rest)
  {
    assert ([lab] + rest)[1..] == rest;
  }

  predicate Short(ls: seq<seq<Byte>>) {
    forall i | 0 <= i < |ls| :: |ls[i]| <= 63
  }

  // The bytes of the message from j on are these labels.
  ghost predicate WrittenAt(p: seq<Byte>, j: nat, ls: seq<seq<Byte>>) {
    Short(ls) && j + |LabelBytes(ls)| <= |p| && p[j..j + |LabelBytes(ls)|] == LabelBytes(ls)
  }

  lemma {:induction false} WrittenFirst(p: seq<Byte>, j: nat, ls: seq<seq<Byte>>)
    requires WrittenAt(p, j, ls) && |ls| > 0
    ensures var n := |ls[0]|;
            && n <= 63 && j + 1 + n <= |p| && p[j] == n && p[j + 1..j + 1 + n] == ls[0]
                && WrittenAt(p, j + 1 + n, ls[1..])
            && |LabelBytes(ls)| == 1 + n + |LabelBytes(ls[1..])|
  {
    var n, tail := |ls[0]|, LabelBytes(ls[1..]);
    var whole := LabelBytes(ls);
    assert whole == [n] + ls[0] + tail;
    hide LabelBytes;
    Cells(p, j, whole);
    assert |whole| == 1 + n + |tail| && whole[0] == n;
    assert whole[1..1 + n] == ls[0] && whole[1 + n..] == tail;
    assert p[j + 1..j + 1 + n] == whole[1..1 + n];
    assert p[j + 1 + n..j + 1 + n + |tail|] == whole[1 + n..];
  }

  // A stretch of the message, byte by byte.
  lemma Cells(p: seq<Byte>, j: nat, w: seq<Byte>)
    requires j + |w| <= |p| && p[j..j + |w|] == w
    ensures forall i | j <= i < j + |w| :: p[i] == w[i - j]
  {
    forall i | j <= i < j + |w| ensures p[i] == w[i - j] {
      assert p[i] == p[j..j + |w|][i - j];
    }
  }

  // Written labels followed by something that reads as T read as the labels and T.
  lemma {:induction false} EndsAfter(p: seq<Byte>, floor: nat, j: nat, ls: seq<seq<Byte>>, T: seq<seq<Byte>>)
    requires WrittenAt(p, j, ls) && NoneEmpty(ls)
    ensures Ends(p, floor, j, ls + T) == Ends(p, floor, j + |LabelBytes(ls)|, T)
    decreases |ls|
  {
    hide *;
    if |ls| == 0 {
      NoLabels(ls);
      assert ls + T == T;
    } else {
      NoneEmptyTail(ls);
      WrittenFirst(p, j, ls);
      EndsAfter(p, floor, j + 1 + |ls[0]|, ls[1..], T);
      Assoc([ls[0]], ls[1..], T);
      assert ls == [ls[0]] + ls[1..];
      EndsStep(p, floor, j, ls[0], ls[1..] + T);
    }
  }

  lemma NoLabels(ls: seq<seq<Byte>>)
    requires |ls| == 0
    ensures Short(ls) && LabelBytes(ls) == []
  {
  }

  lemma NoneEmptyTail(ls: seq<seq<Byte>>)
    requires NoneEmpty(ls) && |ls| > 0
    ensures |ls[0]| > 0 && NoneEmpty(ls[1..])
  {
  }

  lemma {:induction false} UntilEmptyConcat(a: seq<seq<Byte>>, b: seq<seq<Byte>>)
    ensures UntilEmpty(a + b) == if NoneEmpty(a) then a + UntilEmpty(b) else UntilEmpty(a)
    decreases |a|
  {
    if |a| == 0 {
      assert a + b == b && a + UntilEmpty(b) == UntilEmpty(b);
    } else if |a[0]| > 0 {
      UntilEmptyConcat(a[1..], b);
      assert (a + b)[1..] == a[1..] + b;
      assert NoneEmpty(a) <==> NoneEmpty(a[1..]) by {
        assert a == [a[0]] + a[1..];
      }
      if NoneEmpty(a) {
        assert [a[0]] + (a[1..] + UntilEmpty(b)) == a + UntilEmpty(b);
      }
    }
  }

  // An empty label among the written ones ends the name at its own zero byte.
  lemma {:induction false} EndsAtEmpty(p: seq<Byte>, floor: nat, j: nat, ls: seq<seq<Byte>>)
    requires WrittenAt(p, j, ls) && !NoneEmpty(ls)
    ensures Ends(p, floor, j, UntilEmpty(ls)) >= 0
    ensures NoneEmpty(ls[..|ls| - 1]) ==> Ends(p, floor, j, UntilEmpty(ls)) == j + |LabelBytes(ls)|
    decreases |ls|
  {
    hide *;
    SomeLabel(ls);
    WrittenFirst(p, j, ls);
    if |ls[0]| > 0 {
      SomeEmptyTail(ls);
      UntilEmptyNext(ls);
      EndsAtEmpty(p, floor, j + 1 + |ls[0]|, ls[1..]);
      EndsStep(p, floor, j, ls[0], UntilEmpty(ls[1..]));
    } else {
      FirstEmpty(ls);
      EndsNow(p, floor, j);
      if |ls| == 1 {
        NoLabels(ls[1..]);
      }
    }
  }

  lemma SomeLabel(ls: seq<seq<Byte>>)
    requires !NoneEmpty(ls)
    ensures |ls| > 0
  {
  }

  // An empty label in front hides the others.
  lemma FirstEmpty(ls: seq<seq<Byte>>)
    requires |ls| > 0 && |ls[0]| == 0
    ensures UntilEmpty(ls) == [] && (|ls| > 1 ==> !NoneEmpty(ls[..|ls| - 1]))
  {
    assert |ls| > 1 ==> ls[..|ls| - 1][0] == ls[0];
  }

  // A zero byte ends a name.
  lemma EndsNow(p: seq<Byte>, floor: nat, j: nat)
    requires j < |p| && p[j] == 0
    ensures Ends(p, floor, j, []) == j + 1
  {
  }

  lemma SomeEmptyTail(ls: seq<seq<Byte>>)
    requires !NoneEmpty(ls) && |ls| > 0 && |ls[0]| > 0
    ensures |ls| > 1 && !NoneEmpty(ls[1..]) && (NoneEmpty(ls[..|ls| - 1]) ==> NoneEmpty(ls[1..][..|ls| - 2]))
  {
    assert ls == [ls[0]] + ls[1..];
    assert |ls| > 1 ==> ls[1..][..|ls| - 2] == ls[..|ls| - 1][1..];
  }

  lemma UntilEmptyNext(ls: seq<seq<Byte>>)
    requires |ls| > 0 && |ls[0]| > 0
    ensures UntilEmpty(ls) == [ls[0]] + UntilEmpty(ls[1..])
  {
  }

  // ------------------------------------------------------------------------
  // Reading: name_parse

  datatype Parsed = Failed | Name(text: seq<Byte>, next: nat)

  /**
    The loop of name_parse from byte j on, with `text` written so far into a buffer
    of outLen cells, nameEnd where the first pointer was followed (or -1), and
    jumps pointers followed. Any byte above 63 is taken for a pointer.
  */
  function ParseFrom(p: seq<Byte>, j: nat, text: seq<Byte>, outLen: nat, nameEnd: int, jumps: nat): (r: Parsed)
    requires jumps <= |p| && nameEnd <= |p|
    ensures r.Name? ==> text <= r.text && |r.text| < outLen && r.next <= |p|
    ensures r.Name? && nameEnd < 0 ==> j < r.next
    ensures r.Name? && nameEnd >= 0 ==> r.next == nameEnd
    decreases |p| - jumps, |p| - j
  {
    if j >= |p| then Failed
    else
      var len: int := p[j];
      if len == 0 then
        if |text| >= outLen then Failed else Name(text, if nameEnd < 0 then j + 1 else nameEnd)
      else if len >= 64 then
        if j + 1 >= |p| then Failed
        else if Target(p, j) >= |p| || jumps + 1 > |p| then Failed
        else ParseFrom(p, Target(p, j), text, outLen, if nameEnd < 0 then j + 2 else nameEnd, jumps + 1)
      else if |text| > 0 && |text| + 1 >= outLen then Failed
      else
        var dotted := if |text| > 0 then text + [DOT] else text;
        if |dotted| + len >= outLen || j + 1 + len > |p| then Failed
        else ParseFrom(p, j + 1 + len, dotted + p[j + 1..j + 1 + len], outLen, nameEnd, jumps)
  }

  /** A pointer to itself is not followed for ever: reading such a name fails. */
  lemma {:induction false} SelfPointerFails(
    p: seq<Byte>, j: nat, text: seq<Byte>, outLen: nat, nameEnd: int, jumps: nat)
    requires jumps <= |p| && nameEnd <= |p| && j + 1 < |p| && p[j] >= 64 && Target(p, j) == j
    ensures ParseFrom(p, j, text, outLen, nameEnd, jumps) == Failed
    decreases |p| - jumps
  {
    if jumps + 1 <= |p| {
      SelfPointerFails(p, j, text, outLen, if nameEnd < 0 then j + 2 else nameEnd, jumps + 1);
    }
  }

  // What reading the labels adds to the text.
  function JoinOnto(text: seq<Byte>, ls: seq<seq<Byte>>): (s: seq<Byte>)
    ensures |s| >= |text|
    decreases |ls|
  {
    if |ls| == 0 then text
    else JoinOnto((if |text| > 0 then text + [DOT] else text) + ls[0], ls[1..])
  }

  lemma {:induction false} JoinOntoIsJoin(text: seq<Byte>, ls: seq<seq<Byte>>)
    requires NoneEmpty(ls)
    ensures JoinOnto(text, ls) == if |text| == 0 || |ls| == 0 then text + Join(ls) else text + [DOT] + Join(ls)
    decreases |ls|
  {
    if |ls| > 0 {
      var head := (if |text| > 0 then text + [DOT] else text) + ls[0];
      JoinOntoIsJoin(head, ls[1..]);
      if |ls| == 1 {
        assert Join(ls[1..]) == [];
      } else {
        var pre := if |text| > 0 then text + [DOT] else text;
        assert |ls[0]| > 0;
        assert pre + ls[0] + [DOT] + Join(ls[1..]) == pre + (ls[0] + [DOT] + Join(ls[1..]));
      }
    }
  }

  /** Labels that are there are read, and the index comes back behind them. */
  lemma {:induction false} ParseReads(
    p: seq<Byte>, floor: nat, j: nat, ls: seq<seq<Byte>>, text: seq<Byte>, outLen: nat, nameEnd: int, jumps: nat)
    requires Ends(p, floor, j, ls) >= 0 && jumps + floor <= |p| && nameEnd <= |p|
    requires |JoinOnto(text, ls)| < outLen
    ensures ParseFrom(p, j, text, outLen, nameEnd, jumps)
         == Name(JoinOnto(text, ls), if nameEnd < 0 then Ends(p, floor, j, ls) else nameEnd)
    decreases |ls|, floor
  {
    if p[j] == 0 {
    } else if p[j] >= 64 {
      var t := Target(p, j);
      ParseReads(p, t, t, ls, text, outLen, if nameEnd < 0 then j + 2 else nameEnd, jumps + 1);
    } else {
      var len := p[j];
      var dotted := if |text| > 0 then text + [DOT] else text;
      ParseReads(p, floor, j + 1 + len, ls[1..], dotted + ls[0], outLen, nameEnd, jumps);
    }
  }

  // Append bytes of the packet to what is in nameOut[..cp].
  method CopyLabel(packet: seq<Byte>, j: nat, n: nat, nameOut: array<Byte>, cp: nat, ghost text: seq<Byte>)
    requires j + n <= |packet| && cp + n < nameOut.Length && nameOut[..cp] == text
    modifies nameOut
    ensures nameOut[..cp + n] == text + packet[j..j + n]
    ensures forall i | cp + n <= i < nameOut.Length :: nameOut[i] == old(nameOut[i])
  {
    forall i | 0 <= i < n {
      nameOut[cp + i] := packet[j + i];
    }
    assert nameOut[..cp] == text;
    assert nameOut[cp..cp + n] == packet[j..j + n];
    assert nameOut[..cp + n] == nameOut[..cp] + nameOut[cp..cp + n];
  }

  method PutByte(nameOut: array<Byte>, cp: nat, b: Byte, ghost text: seq<Byte>)
    requires cp < nameOut.Length && nameOut[..cp] == text
    modifies nameOut
    ensures nameOut[..cp + 1] == text + [b] && nameOut[..cp] == text && nameOut[cp] == b
    ensures forall i | cp + 1 <= i < nameOut.Length :: nameOut[i] == old(nameOut[i])
  {
    nameOut[cp] := b;
    assert nameOut[..cp] == text;
  }

  function Dotted(text: seq<Byte>): seq<Byte> { if |text| > 0 then text + [DOT] else text }

  // The text still fits with a dot, the label and a final NUL.
  predicate LabelFits(p: seq<Byte>, j: nat, len: nat, text: seq<Byte>, outLen: nat) {
    && (|text| > 0 ==> |text| + 1 < outLen)
    && |Dotted(text)| + len < outLen && j + len <= |p|
  }

  // A label of `len` bytes at j: a dot unless it is the first, then the bytes.
  method TakeLabel(
    packet: seq<Byte>, j: nat, len: nat, nameOut: array<Byte>, cp0: nat, ghost text: seq<Byte>)
    returns (ok: bool, cp: nat)
    requires |text| == cp0 <= nameOut.Length && nameOut[..cp0] == text
    modifies nameOut
    ensures ok <==> LabelFits(packet, j, len, text, nameOut.Length)
    ensures ok ==> cp == |Dotted(text)| + len && nameOut[..cp] == Dotted(text) + packet[j..j + len]
    ensures ok ==> forall i | cp <= i < nameOut.Length :: nameOut[i] == old(nameOut[i])
  {
    cp := cp0;
    if cp != 0 {
      if cp + 1 >= nameOut.Length {
        return false, cp;
      }
      PutByte(nameOut, cp, DOT, text);
      cp := cp + 1;
    }
    if cp + len >= nameOut.Length {
      return false, cp;
    }
    if j + len > |packet| {
      return false, cp;
    }
    CopyLabel(packet, j, len, nameOut, cp, Dotted(text));
    ok, cp := true, cp + len;
  }

  lemma ParseLabel(p: seq<Byte>, j: nat, text: seq<Byte>, outLen: nat, nameEnd: int, jumps: nat)
    requires jumps <= |p| && nameEnd <= |p| && j < |p| && 0 < p[j] < 64
    ensures ParseFrom(p, j, text, outLen, nameEnd, jumps)
         == if LabelFits(p, j + 1, p[j], text, outLen) then
              ParseFrom(p, j + 1 + p[j], Dotted(text) + p[j + 1..j + 1 + p[j]], outLen, nameEnd, jumps)
            else Failed
  {
  }

  lemma ParseEnd(p: seq<Byte>, j: nat, text: seq<Byte>, outLen: nat, nameEnd: int, jumps: nat)
    requires jumps <= |p| && nameEnd <= |p| && (j >= |p| || p[j] == 0)
    ensures ParseFrom(p, j, text, outLen, nameEnd, jumps)
         == if j >= |p| || |text| >= outLen then Failed else Name(text, if nameEnd < 0 then j + 1 else nameEnd)
  {
  }

  lemma ParsePointer(p: seq<Byte>, j: nat, text: seq<Byte>, outLen: nat, nameEnd: int, jumps: nat)
    requires jumps <= |p| && nameEnd <= |p| && j < |p| && p[j] >= 64
    ensures ParseFrom(p, j, text, outLen, nameEnd, jumps)
         == if j + 1 >= |p| || Target(p, j) >= |p| || jumps + 1 > |p| then Failed
            else ParseFrom(p, Target(p, j), text, outLen, if nameEnd < 0 then j + 2 else nameEnd, jumps + 1)
  {
  }

  // The two bytes of a pointer at j have to be read, and its target checked.
  method FollowPointer(packet: seq<Byte>, j: nat, nameEnd: int, ptrCount: nat) returns (ok: bool, to: nat, end: int)
    requires j < |packet| && packet[j] >= 64 && nameEnd <= |packet|
    ensures ok <==> j + 1 < |packet| && Target(packet, j) < |packet| && ptrCount + 1 <= |packet|
    ensures ok ==> to == Target(packet, j) && end == (if nameEnd < 0 then j + 2 else nameEnd)
  {
    to, end := j + 1, nameEnd;
    if to >= |packet| {
      return false, to, end;
    }
    var high: int, low: int := packet[j], packet[to];
    to := to + 1;
    if end < 0 {
      end := to;
    }
    to := 256 * (high % 64) + low;
    if to >= |packet| {
      return false, to, end;
    }
    ok := ptrCount + 1 <= |packet|;
  }

  /** name_parse: the name goes to nameOut, the return is the new index or -1 */
  method NameParse(packet: seq<Byte>, idx: nat, nameOut: array<Byte>) returns (r: int)
    modifies nameOut
    ensures var q := ParseFrom(packet, idx, [], nameOut.Length, -1, 0);
            if q.Failed? then r == -1
            else
              && r == q.next && nameOut[..|q.text|] == q.text && nameOut[|q.text|] == 0
              && forall i | |q.text| < i < nameOut.Length :: nameOut[i] == old(nameOut[i])
  {
    hide ParseFrom;
    hide Target;
    var length := |packet|;
    var nameEnd, j: nat, ptrCount: nat, cp: nat := -1, idx, 0, 0;
    var end := nameOut.Length;
    ghost var text: seq<Byte> := [];
    while true
      invariant 0 <= ptrCount <= length && nameEnd <= length && |text| == cp <= end
      invariant nameOut[..cp] == text
      invariant ParseFrom(packet, idx, [], end, -1, 0) == ParseFrom(packet, j, text, end, nameEnd, ptrCount)
      invariant forall i | cp <= i < end :: nameOut[i] == old(nameOut[i])
      decreases length - ptrCount, length - j
    {
      if j >= length {
        ParseEnd(packet, j, text, end, nameEnd, ptrCount);
        return -1;
      }
      var labelLen: int := packet[j];
      if labelLen == 0 {
        ParseEnd(packet, j, text, end, nameEnd, ptrCount);
        j := j + 1;
        break;
      }
      var ok;
      if labelLen >= 64 {
        ParsePointer(packet, j, text, end, nameEnd, ptrCount);
        ok, j, nameEnd := FollowPointer(packet, j, nameEnd, ptrCount);
        if !ok {
          return -1;
        }
        ptrCount := ptrCount + 1;
        continue;
      }
      ParseLabel(packet, j, text, end, nameEnd, ptrCount);
      ok, cp := TakeLabel(packet, j + 1, labelLen, nameOut, cp, text);
      if !ok {
        return -1;
      }
      text := Dotted(text) + packet[j + 1..j + 1 + labelLen];
      j := j + 1 + labelLen;
    }
    if cp >= end {
      return -1;
    }
    PutByte(nameOut, cp, 0, text);
    r := if nameEnd < 0 then j else nameEnd;
  }
}
