/**
  Writing names into DNS messages with compression (evdns.c, dnsname_to_labels and
  the dnslabel_table functions), and reading back everything that was written.
*/
module DnsEncoding {
  import opened Basics
  import opened DnsNames

  const MAX_LABELS: nat := 128

  /** A suffix that has been written, and where. */
  datatype Entry = Entry(v: seq<Byte>, pos: nat)

  class LabelTable {
    var labels: seq<Entry>

    constructor ()
      ensures labels == []
    {
      labels := [];
    }

    /** dnslabel_table_get_pos */
    method GetPos(text: seq<Byte>) returns (pos: int)
      ensures pos == -1 ==> forall i | 0 <= i < |labels| :: labels[i].v != text
      ensures pos != -1 ==> pos >= 0 && exists i | 0 <= i < |labels| :: labels[i] == Entry(text, pos)
    {
      var i := 0;
      while i < |labels|
        invariant 0 <= i <= |labels| && forall k | 0 <= k < i :: labels[k].v != text
      {
        if labels[i].v == text {
          assert labels[i] == Entry(text, labels[i].pos);
          return labels[i].pos;
        }
        i := i + 1;
      }
      pos := -1;
    }

    /** dnslabel_table_add; when there is no room or no memory nothing is remembered */
    method Add(text: seq<Byte>, pos: nat, mallocOk: bool) returns (r: int)
      modifies this
      ensures labels == if r == 0 then old(labels) + [Entry(text, pos)] else old(labels)
      ensures r == if |old(labels)| < MAX_LABELS && mallocOk then 0 else -1
    {
      if |labels| >= MAX_LABELS {
        return -1;
      }
      if !mallocOk {
        return -1;
      }
      labels := labels + [Entry(text, pos)];
      r := 0;
    }
  }

  // At the entry's place the message reads as the entry's text.
  ghost predicate EntryOk(p: seq<Byte>, e: Entry) {
    e.pos < |p| && Ends(p, e.pos, e.pos, UntilEmpty(Split(e.v))) >= 0
  }

  ghost predicate TableOk(p: seq<Byte>, es: seq<Entry>) {
    forall i | 0 <= i < |es| :: EntryOk(p, es[i])
  }

  lemma {:induction false} TableExtend(p: seq<Byte>, q: seq<Byte>, es: seq<Entry>)
    requires p <= q && TableOk(p, es)
    ensures TableOk(q, es)
  {
    forall i | 0 <= i < |es| ensures EntryOk(q, es[i]) {
      assert EntryOk(p, es[i]);
      EndsExtend(p, q, es[i].pos, es[i].pos, UntilEmpty(Split(es[i].v)));
    }
  }

  // ------------------------------------------------------------------------
  // Labels already written, in detail

  lemma {:induction false} LabelBytesConcat(a: seq<seq<Byte>>, b: seq<seq<Byte>>)
    requires Short(a) && Short(b)
    ensures Short(a + b) && LabelBytes(a + b) == LabelBytes(a) + LabelBytes(b)
    decreases |a|
  {
    if |a| == 0 {
      assert a + b == b;
    } else {
      LabelBytesConcat(a[1..], b);
      assert (a + b)[1..] == a[1..] + b;
    }
  }

  lemma {:induction false} WrittenSuffix(p: seq<Byte>, j: nat, ls: seq<seq<Byte>>, m: nat)
    requires WrittenAt(p, j, ls) && m <= |ls|
    ensures var at := j + |LabelBytes(ls[..m])|;
            at + |LabelBytes(ls[m..])| == j + |LabelBytes(ls)| && WrittenAt(p, at, ls[m..])
  {
    LabelBytesConcat(ls[..m], ls[m..]);
    assert ls[..m] + ls[m..] == ls;
    var n, whole := |LabelBytes(ls[..m])|, LabelBytes(ls);
    assert p[j + n..j + |whole|] == p[j..j + |whole|][n..] == whole[n..];
  }

  lemma {:induction false} WrittenMore(p: seq<Byte>, j: nat, ls: seq<seq<Byte>>, lab: seq<Byte>)
    requires WrittenAt(p, j, ls) && |p| == j + |LabelBytes(ls)| && |lab| <= 63
    ensures WrittenAt(p + [|lab|] + lab, j, ls + [lab])
    ensures |LabelBytes(ls + [lab])| == |LabelBytes(ls)| + 1 + |lab|
  {
    LabelBytesConcat(ls, [lab]);
    assert [lab][1..] == [];
    assert LabelBytes([lab]) == [|lab|] + lab + [];
    var q := p + [|lab|] + lab;
    assert q[j..] == p[j..] + ([|lab|] + lab);
    assert q[j..|q|] == q[j..];
  }

  // Whatever follows the written labels reads as T: then all of it reads as expected.
  lemma {:induction false} EndsWritten(p: seq<Byte>, floor: nat, j: nat, ls: seq<seq<Byte>>, T: seq<seq<Byte>>)
    requires WrittenAt(p, j, ls)
    requires NoneEmpty(ls) ==> Ends(p, floor, j + |LabelBytes(ls)|, UntilEmpty(T)) >= 0
    ensures Ends(p, floor, j, UntilEmpty(ls + T)) >= 0
    ensures NoneEmpty(ls) ==>
              Ends(p, floor, j, UntilEmpty(ls + T)) == Ends(p, floor, j + |LabelBytes(ls)|, UntilEmpty(T))
    ensures !NoneEmpty(ls) && NoneEmpty(ls[..|ls| - 1]) ==>
              Ends(p, floor, j, UntilEmpty(ls + T)) == j + |LabelBytes(ls)|
  {
    UntilEmptyConcat(ls, T);
    if NoneEmpty(ls) {
      EndsAfter(p, floor, j, ls, UntilEmpty(T));
    } else {
      EndsAtEmpty(p, floor, j, ls);
    }
  }

  // An entry made while the current name was being written: its text is the labels
  // from the m-th on and whatever is still to come.
  ghost predicate PendingAt(e: Entry, start: nat, ls: seq<seq<Byte>>, T: seq<seq<Byte>>, m: nat) {
    && m < |ls| && Short(ls)
    && e.pos == start + |LabelBytes(ls[..m])| && Split(e.v) == ls[m..] + T
  }

  ghost predicate Pending(e: Entry, start: nat, ls: seq<seq<Byte>>, rest: seq<Byte>, T: seq<seq<Byte>>) {
    |e.v| > |rest| && exists m: nat :: PendingAt(e, start, ls, T, m)
  }

  lemma {:induction false} PendingMore(
    e: Entry, start: nat, ls: seq<seq<Byte>>, rest: seq<Byte>, lab: seq<Byte>, rest': seq<Byte>, T: seq<seq<Byte>>)
    requires Pending(e, start, ls, rest, [lab] + T) && |rest'| <= |rest| && |lab| <= 63
    ensures Pending(e, start, ls + [lab], rest', T)
  {
    var m: nat :| PendingAt(e, start, ls, [lab] + T, m);
    assert (ls + [lab])[..m] == ls[..m];
    assert (ls + [lab])[m..] + T == ls[m..] + ([lab] + T);
    assert PendingAt(e, start, ls + [lab], T, m);
  }

  lemma {:induction false} PendingNew(
    start: nat, ls: seq<seq<Byte>>, rest: seq<Byte>, lab: seq<Byte>, rest': seq<Byte>, T: seq<seq<Byte>>)
    requires Short(ls) && |lab| <= 63 && |rest'| < |rest| && Split(rest) == [lab] + T
    ensures Pending(Entry(rest, start + |LabelBytes(ls)|), start, ls + [lab], rest', T)
  {
    assert (ls + [lab])[..|ls|] == ls;
    assert (ls + [lab])[|ls|..] + T == [lab] + T;
    assert PendingAt(Entry(rest, start + |LabelBytes(ls)|), start, ls + [lab], T, |ls|);
  }

  // Once the name is ended, its own entries are as good as the older ones.
  lemma {:induction false} PendingDone(
    p: seq<Byte>, e: Entry, start: nat, ls: seq<seq<Byte>>, T: seq<seq<Byte>>, m: nat)
    requires WrittenAt(p, start, ls) && PendingAt(e, start, ls, T, m)
    requires Ends(p, start, start + |LabelBytes(ls)|, UntilEmpty(T)) >= 0 || |ls[|ls| - 1]| == 0
    ensures EntryOk(p, e)
  {
    WrittenSuffix(p, start, ls, m);
    var end := start + |LabelBytes(ls)|;
    if NoneEmpty(ls[m..]) {
      assert |ls[m..][|ls| - m - 1]| > 0;
      EndsHigher(p, start, e.pos, end, UntilEmpty(T));
    }
    EndsWritten(p, e.pos, e.pos, ls[m..], T);
  }

  // ------------------------------------------------------------------------
  // dnsname_to_labels

  /** strchr(name, '.'), or the length when there is none */
  method FindDot(s: seq<Byte>) returns (k: nat)
    ensures k <= |s| && DOT !in s[..k] && (k < |s| ==> s[k] == DOT)
  {
    k := 0;
    while k < |s| && s[k] != DOT
      invariant k <= |s| && DOT !in s[..k]
    {
      assert s[..k + 1] == s[..k] + [s[k]];
      k := k + 1;
    }
  }

  // The length byte and the label.
  method PutLabel(buf: array<Byte>, j: nat, lab: seq<Byte>)
    requires |lab| <= 63 && j + 1 + |lab| <= buf.Length
    modifies buf
    ensures buf[..j + 1 + |lab|] == old(buf[..j]) + [|lab|] + lab
    ensures forall i | 0 <= i < j :: buf[i] == old(buf[i])
  {
    ghost var before := buf[..j];
    buf[j] := |lab|;
    forall i | 0 <= i < |lab| {
      buf[j + 1 + i] := lab[i];
    }
    assert buf[..j] == before && buf[j + 1..j + 1 + |lab|] == lab;
    assert buf[..j + 1 + |lab|] == buf[..j] + [buf[j]] + buf[j + 1..j + 1 + |lab|];
  }

  // The last label, and a zero byte unless there is one already.
  method PutLast(buf: array<Byte>, j0: nat, lab: seq<Byte>) returns (j: nat)
    requires |lab| <= 63 && j0 + 1 + |lab| + (if |lab| > 0 then 1 else 0) <= buf.Length && 0 !in lab
    modifies buf
    ensures buf[..j0 + 1 + |lab|] == old(buf[..j0]) + [|lab|] + lab
    ensures j == j0 + 1 + |lab| + (if |lab| > 0 then 1 else 0)
    ensures buf[..j] == old(buf[..j0]) + [|lab|] + lab + (if |lab| > 0 then [0] else [])
    ensures forall i | 0 <= i < j0 :: buf[i] == old(buf[i])
  {
    PutLabel(buf, j0, lab);
    j := j0 + 1 + |lab|;
    ghost var p := buf[..j];
    assert buf[j - 1] == p[j - 1];
    assert |lab| > 0 ==> p[j - 1] == lab[|lab| - 1];
    if buf[j - 1] != 0 {
      buf[j] := 0;
      assert buf[..j] == p && buf[..j + 1] == p + [0];
      j := j + 1;
    }
  }

  // APPEND16(ref | 0xc000)
  method PutPointer(buf: array<Byte>, j: nat, ref: nat)
    requires j + 2 <= buf.Length
    modifies buf
    ensures buf[..j + 2] == old(buf[..j]) + [192 + ref / 256 % 64, ref % 256]
    ensures forall i | 0 <= i < j :: buf[i] == old(buf[i])
  {
    ghost var before := buf[..j];
    buf[j] := 192 + ref / 256 % 64;
    buf[j + 1] := ref % 256;
    assert buf[..j] == before;
    assert buf[..j + 2] == buf[..j] + [buf[j], buf[j + 1]];
  }

  lemma {:induction false} PointerReads(p: seq<Byte>, ref: nat, floor: nat, ls: seq<seq<Byte>>)
    requires ref < floor && ref < 0x4000 && Ends(p, ref, ref, ls) >= 0
    ensures var q := p + [192 + ref / 256 % 64, ref % 256];
            Ends(q, floor, |p|, ls) == |p| + 2
  {
    var q := p + [192 + ref / 256 % 64, ref % 256];
    assert q[|p|] == 192 + ref / 256 && q[|p| + 1] == ref % 256;
    assert Target(q, |p|) == ref;
    EndsExtend(p, q, ref, ref, ls);
  }

  /**
    The state of the loop: `ls` has been written from `start` on, `rest` is still to
    be written, the older entries read right, the newer ones will.
  */
  ghost predicate Writing(
    p: seq<Byte>, start: nat, name: seq<Byte>, ls: seq<seq<Byte>>, rest: seq<Byte>, es: seq<Entry>, n: nat)
  {
    && start <= |p| && WrittenAt(p, start, ls) && |p| == start + |LabelBytes(ls)|
    && Split(name) == ls + Split(rest)
    && n <= |es| && TableOk(p[..start], es[..n])
    && forall i | n <= i < |es| :: Pending(es[i], start, ls, rest, Split(rest))
  }

  // An empty label, if any, is the last one: the name ends in a dot, or is empty.
  ghost predicate Regular(name: seq<Byte>) {
    NoneEmpty(Split(name)[..|Split(name)| - 1])
  }

  /** The name stands complete at the end of p, and every table entry reads right. */
  ghost predicate Done(p: seq<Byte>, start: nat, name: seq<Byte>, es: seq<Entry>) {
    && TableOk(p, es)
    && Ends(p, start, start, UntilEmpty(Split(name))) >= 0
    && (Regular(name) ==> Ends(p, start, start, UntilEmpty(Split(name))) == |p|)
  }

  lemma {:induction false} WritingStart(p: seq<Byte>, name: seq<Byte>, es: seq<Entry>)
    requires TableOk(p, es)
    ensures Writing(p, |p|, name, [], name, es, |es|)
  {
    assert [] + Split(name) == Split(name);
    assert p[..|p|] == p && es[..|es|] == es;
  }

  lemma {:induction false} WritingStep(
    p: seq<Byte>, start: nat, name: seq<Byte>, ls: seq<seq<Byte>>, rest: seq<Byte>, es: seq<Entry>, n: nat, k: nat,
    es': seq<Entry>)
    requires Writing(p, start, name, ls, rest, es, n)
    requires k < |rest| && DOT !in rest[..k] && rest[k] == DOT && k <= 63
    requires es' == es || es' == es + [Entry(rest, |p|)]
    ensures Writing(p + [k] + rest[..k], start, name, ls + [rest[..k]], rest[k + 1..], es', n)
  {
    hide Split; hide LabelBytes; hide Pending; hide TableOk;
    var lab, rest', q := rest[..k], rest[k + 1..], p + [k] + rest[..k];
    SplitAtDot(rest, k);
    assert ls + ([lab] + Split(rest')) == ls + [lab] + Split(rest');
    WrittenMore(p, start, ls, lab);
    assert q[..start] == p[..start] && es'[..n] == es[..n];
    forall i | n <= i < |es'| ensures Pending(es'[i], start, ls + [lab], rest', Split(rest')) {
      if i < |es| {
        PendingMore(es[i], start, ls, rest, lab, rest', Split(rest'));
      } else {
        PendingNew(start, ls, rest, lab, rest', Split(rest'));
      }
    }
  }

  lemma {:induction false} AllEntriesDone(
    p: seq<Byte>, q: seq<Byte>, start: nat, name: seq<Byte>, ls: seq<seq<Byte>>, rest: seq<Byte>, es: seq<Entry>,
    n: nat, T: seq<seq<Byte>>)
    requires start <= |p| && p <= q && WrittenAt(q, start, ls)
    requires n <= |es| && TableOk(p[..start], es[..n])
    requires forall i | n <= i < |es| :: Pending(es[i], start, ls, rest, T)
    requires Ends(q, start, start + |LabelBytes(ls)|, UntilEmpty(T)) >= 0 || (|ls| > 0 && |ls[|ls| - 1]| == 0)
    ensures TableOk(q, es)
  {
    TableExtend(p[..start], q, es[..n]);
    forall i | 0 <= i < |es| ensures EntryOk(q, es[i]) {
      if i < n {
        assert EntryOk(q, es[..n][i]);
      } else {
        assert Pending(es[i], start, ls, rest, T);
        var m: nat :| PendingAt(es[i], start, ls, T, m);
        PendingDone(q, es[i], start, ls, T, m);
      }
    }
  }

  lemma {:induction false} WrittenExtend(p: seq<Byte>, q: seq<Byte>, j: nat, ls: seq<seq<Byte>>)
    requires p <= q && WrittenAt(p, j, ls)
    ensures WrittenAt(q, j, ls)
  {
    var n := |LabelBytes(ls)|;
    assert q[j..j + n] == p[j..j + n];
  }

  // The rest of the name has been written before: a pointer ends the name.
  lemma {:induction false} WritingPointer(
    p: seq<Byte>, start: nat, name: seq<Byte>, ls: seq<seq<Byte>>, rest: seq<Byte>, es: seq<Entry>, n: nat, ref: nat)
    requires Writing(p, start, name, ls, rest, es, n) && start <= 0x4000
    requires exists i | 0 <= i < |es| :: es[i] == Entry(rest, ref)
    ensures Done(p + [192 + ref / 256 % 64, ref % 256], start, name, es)
  {
    hide Split; hide LabelBytes; hide Ends; hide UntilEmpty;
    var i :| 0 <= i < |es| && es[i] == Entry(rest, ref);
    assert i < n;
    assert EntryOk(p[..start], es[..n][i]);
    hide Pending;
    var T, q := Split(rest), p + [192 + ref / 256 % 64, ref % 256];
    EndsExtend(p[..start], p, ref, ref, UntilEmpty(T));
    PointerReads(p, ref, start, UntilEmpty(T));
    WrittenExtend(p, q, start, ls);
    assert Ends(q, start, start + |LabelBytes(ls)|, UntilEmpty(T)) >= 0;
    AllEntriesDone(p, q, start, name, ls, rest, es, n, T);
    EndsWritten(q, start, start, ls, T);
    if Regular(name) {
      assert forall k | 0 <= k < |ls| :: ls[k] == Split(name)[..|Split(name)| - 1][k];
    }
  }

  // The last label has been written, and a zero byte unless it was empty.
  lemma {:induction false} WritingLast(
    p: seq<Byte>, start: nat, name: seq<Byte>, ls: seq<seq<Byte>>, rest: seq<Byte>, es: seq<Entry>, n: nat,
    es': seq<Entry>, q: seq<Byte>)
    requires Writing(p, start, name, ls, rest, es, n)
    requires DOT !in rest && |rest| <= 63
    requires es' == es || es' == es + [Entry(rest, |p|)]
    requires q == p + [|rest|] + rest + (if |rest| > 0 then [0] else [])
    ensures Done(q, start, name, es')
  {
    hide Split; hide Pending; hide TableOk;
    assert rest[..|rest|] == rest;
    SplitAtDot(rest, |rest|);
    var all, p1 := ls + [rest], p + [|rest|] + rest;
    assert all + [] == all && Split(name) == all;
    WrittenMore(p, start, ls, rest);
    assert p1 <= q;
    WrittenExtend(p1, q, start, all);
    var end := start + |LabelBytes(all)|;
    assert end == |p1|;
    if |rest| > 0 {
      assert q[end] == 0;
      assert Ends(q, start, end, UntilEmpty([])) == |q|;
    }
    LastEntriesDone(p, q, start, name, ls, rest, es, n, es');
    assert all[|ls|] == rest;
    EndsWritten(q, start, start, all, []);
    if Regular(name) {
      assert all[..|all| - 1] == ls;
      if |rest| > 0 {
        assert NoneEmpty(all);
      }
    }
  }

  lemma WrittenShort(p: seq<Byte>, j: nat, ls: seq<seq<Byte>>)
    requires WrittenAt(p, j, ls)
    ensures Short(ls)
  {
  }

  lemma {:induction false} LastEntriesDone(
    p: seq<Byte>, q: seq<Byte>, start: nat, name: seq<Byte>, ls: seq<seq<Byte>>, rest: seq<Byte>, es: seq<Entry>,
    n: nat, es': seq<Entry>)
    requires Writing(p, start, name, ls, rest, es, n) && p <= q
    requires |rest| <= 63 && Split(rest) == [rest] && WrittenAt(q, start, ls + [rest])
    requires |rest| > 0 ==> Ends(q, start, start + |LabelBytes(ls + [rest])|, []) >= 0
    requires es' == es || es' == es + [Entry(rest, |p|)]
    ensures TableOk(q, es')
  {
    hide Ends;
    hide Split;
    hide WrittenAt;
    var all := ls + [rest];
    assert [rest] + [] == [rest];
    assert Short(all) by {
      WrittenShort(q, start, all);
    }
    forall i | 0 <= i < |es'| ensures EntryOk(q, es'[i]) {
      if i < n {
        TableExtend(p[..start], q, es[..n]);
        assert EntryOk(q, es[..n][i]);
      } else {
        var e := es'[i];
        var m: nat;
        if i < |es| {
          m :| PendingAt(e, start, ls, Split(rest), m);
          assert all[..m] == ls[..m] && all[m..] == ls[m..] + [rest];
        } else {
          m := |ls|;
          assert all[..m] == ls && all[m..] == [rest];
        }
        assert all[m..] + [] == all[m..];
        PendingDone(q, e, start, all, [], m);
      }
    }
  }

  // ------------------------------------------------------------------------
  // The final zero byte and the end of the buffer

  // A label of the name begins at k.
  predicate Boundary(name: seq<Byte>, k: nat) {
    k <= |name| && (k == 0 || name[k - 1] == DOT)
  }

  // No entry is the rest of the name from one of the labels before `to` on.
  predicate Unmatched(name: seq<Byte>, es: seq<Entry>, to: nat) {
    forall i, k: nat | 0 <= i < |es| && k < to && Boundary(name, k) :: es[i].v != name[k..]
  }

  /**
    What makes dnsname_to_labels write behind the end: a well-formed name that does not
    end in a dot, of which the table knows no suffix, and which fits without its zero byte.
  */
  predicate Overruns(bufLen: nat, start: nat, name: seq<Byte>, es: seq<Entry>) {
    && |name| <= 255 && Short(Split(name))
    && |name| > 0 && name[|name| - 1] != DOT
    && start + |name| + 1 == bufLen
    && Unmatched(name, es, |name|)
  }

  // The loop is at the label that begins at `at`, and no entry has helped so far.
  ghost predicate Along(name: seq<Byte>, es: seq<Entry>, at: nat, rest: seq<Byte>) {
    Boundary(name, at) && rest == name[at..] && Unmatched(name, es, at)
  }

  ghost predicate Known(es: seq<Entry>, text: seq<Byte>) {
    exists i | 0 <= i < |es| :: es[i].v == text
  }

  lemma {:induction false} AlongStep(name: seq<Byte>, es: seq<Entry>, at: nat, rest: seq<Byte>, k: nat)
    requires Along(name, es, at, rest) && k < |rest| && DOT !in rest[..k] && rest[k] == DOT && !Known(es, rest)
    ensures Along(name, es, at + k + 1, rest[k + 1..])
  {
    forall m: nat | at < m < at + k + 1 ensures !Boundary(name, m) {
      assert name[m - 1] == rest[..k][m - 1 - at];
    }
  }

  lemma {:induction false} AlongEnd(name: seq<Byte>, es: seq<Entry>, at: nat, rest: seq<Byte>)
    requires Along(name, es, at, rest) && |rest| > 0 && DOT !in rest && !Known(es, rest)
    ensures |name| > 0 && name[|name| - 1] != DOT && Unmatched(name, es, |name|)
  {
    assert name[|name| - 1] == rest[|rest| - 1];
    forall m: nat | at < m < |name| ensures !Boundary(name, m) {
      assert name[m - 1] == rest[m - 1 - at];
    }
  }

  lemma {:induction false} AlongLast(name: seq<Byte>, es: seq<Entry>, at: nat, rest: seq<Byte>)
    requires Along(name, es, at, rest) && DOT !in rest && !Known(es, rest)
    ensures Unmatched(name, es, |name| + 1) && (|rest| == 0 <==> |name| == 0 || name[|name| - 1] == DOT)
  {
    if |rest| > 0 {
      assert name[|name| - 1] == rest[|rest| - 1];
    }
    forall m: nat | at < m <= |name| ensures !Boundary(name, m) {
      assert name[m - 1] == rest[m - 1 - at];
    }
  }

  /**
    How long the encoding of a name is: a pointer stands for the first rest of it, from a
    label on, that the table knows; without one there are a byte for each label, its text,
    and the zero byte unless the name ends in a dot.
  */
  ghost predicate Encoded(name: seq<Byte>, es: seq<Entry>, len: int) {
    || (exists at: nat ::
          Boundary(name, at) && Unmatched(name, es, at) && Known(es, name[at..]) && len == at + 2)
    || (&& Unmatched(name, es, |name| + 1)
        && len == |name| + if |name| == 0 || name[|name| - 1] == DOT then 1 else 2)
  }

  /** A name that the table knows takes two bytes. */
  lemma {:induction false} KnownIsShort(name: seq<Byte>, es: seq<Entry>, len: int)
    requires Encoded(name, es, len) && Known(es, name)
    ensures len == 2
  {
    var i :| 0 <= i < |es| && es[i].v == name;
    assert name[0..] == name && Boundary(name, 0);
    assert forall to: nat | to > 0 :: !Unmatched(name, es, to);
    hide Unmatched; hide Known;
  }

  lemma PointerLength(name: seq<Byte>, es: seq<Entry>, at: nat, rest: seq<Byte>)
    requires Along(name, es, at, rest) && Known(es, rest)
    ensures Encoded(name, es, at + 2)
  {
    hide Unmatched; hide Known;
  }

  lemma PlainLength(name: seq<Byte>, es: seq<Entry>, at: nat, rest: seq<Byte>)
    requires Along(name, es, at, rest) && DOT !in rest && !Known(es, rest)
    ensures Encoded(name, es, at + |rest| + if |rest| > 0 then 2 else 1)
  {
    AlongLast(name, es, at, rest);
    hide Unmatched; hide Known;
  }

  // What the table knows of the rest it knew before: the entries of this name are longer.
  lemma KnownBefore(
    p: seq<Byte>, start: nat, name: seq<Byte>, ls: seq<seq<Byte>>, rest: seq<Byte>, es: seq<Entry>, n: nat)
    requires Writing(p, start, name, ls, rest, es, n) && n <= |es| && Known(es, rest)
    ensures Known(es[..n], rest)
  {
    var i :| 0 <= i < |es| && es[i].v == rest;
    assert i < n;
    assert es[..n][i].v == rest;
  }

  lemma NotKnownBefore(es: seq<Entry>, n: nat, rest: seq<Byte>)
    requires n <= |es| && !Known(es, rest)
    ensures !Known(es[..n], rest)
  {
    assert forall i | 0 <= i < n :: es[..n][i] == es[i];
  }

  // The last label of a name that fits but for its zero byte.
  lemma {:induction false} LastOverruns(
    p: seq<Byte>, bufLen: nat, start: nat, name: seq<Byte>, ls: seq<seq<Byte>>, rest: seq<Byte>, es: seq<Entry>, n: nat)
    requires Writing(p, start, name, ls, rest, es, n) && Along(name, es[..n], |p| - start, rest)
    requires DOT !in rest && 0 < |rest| <= 63 && !Known(es, rest) && |p| + |rest| + 1 == bufLen && |name| <= 255
    ensures Overruns(bufLen, start, name, es[..n])
  {
    hide LabelBytes; hide TableOk; hide Pending;
    assert !Known(es[..n], rest) by {
      assert forall i | 0 <= i < n :: es[..n][i] == es[i];
    }
    AlongEnd(name, es[..n], |p| - start, rest);
    assert rest[..|rest|] == rest;
    SplitAtDot(rest, |rest|);
    hide Split;
    assert Split(name) == ls + [rest];
  }

  // While such a name is being written there is always another label, which no entry knows.
  lemma {:induction false} OverrunsGoesOn(
    p: seq<Byte>, bufLen: nat, start: nat, name: seq<Byte>, ls: seq<seq<Byte>>, rest: seq<Byte>, es: seq<Entry>, n: nat)
    requires Writing(p, start, name, ls, rest, es, n) && Along(name, es[..n], |p| - start, rest)
    requires Overruns(bufLen, start, name, es[..n])
    ensures |rest| > 0 && |p| + |rest| + 1 == bufLen && !Known(es, rest)
  {
    forall i | 0 <= i < |es| ensures es[i].v != rest {
      if i < n {
        assert es[..n][i] == es[i];
      } else {
        assert Pending(es[i], start, ls, rest, Split(rest));
      }
    }
  }

  datatype Progress = More | Ended | TooLong | NoRoom

  // One round of the loop: a pointer, the last label, or one label more.
  method WriteOne(buf: array<Byte>, bufLen: nat, j: nat, rest: seq<Byte>, table: LabelTable, mallocOk: bool,
                  ghost start: nat, ghost name: seq<Byte>, ghost ls: seq<seq<Byte>>, ghost n: nat)
      returns (s: Progress, j': nat, rest': seq<Byte>, ghost ls': seq<seq<Byte>>)
    requires start <= j <= bufLen <= buf.Length && 0 !in rest && |name| <= 255
    requires Writing(buf[..j], start, name, ls, rest, table.labels, n) && n <= |table.labels|
    requires Along(name, table.labels[..n], j - start, rest)
    requires bufLen == buf.Length ==> !Overruns(bufLen, start, name, table.labels[..n])
    modifies buf, table
    ensures forall i | 0 <= i < j :: buf[i] == old(buf[i])
    ensures n <= |table.labels| && table.labels[..n] == old(table.labels[..n])
    ensures Entered(old(table.labels), table.labels, rest, j, mallocOk && (s == More || s == Ended))
    ensures s == Ended ==> Encoded(name, table.labels[..n], j' - start)
    ensures s == More ==>
              && j < j' <= bufLen && |rest'| < |rest| && j' + |rest'| == j + |rest| && 0 !in rest'
              && Writing(buf[..j'], start, name, ls', rest', table.labels, n)
              && Along(name, table.labels[..n], j' - start, rest')
    ensures s == Ended ==> j < j' <= bufLen + 1 && j' <= j + |rest| + 2
    ensures s == Ended && start <= 0x4000 ==> j' <= buf.Length && Done(buf[..j'], start, name, table.labels)
    ensures s == TooLong ==> !Short(Split(name))
    ensures s == NoRoom ==> j + |rest| + 2 > bufLen
    ensures s == Ended && j' == bufLen + 1 ==>
              Overruns(bufLen, start, name, old(table.labels[..n])) && bufLen < buf.Length && buf[bufLen] == 0
    ensures Overruns(bufLen, start, name, old(table.labels[..n])) ==> s == More || (s == Ended && j' == bufLen + 1)
  {
    hide Writing;
    hide Done;
    hide Split;
    hide Along;
    hide Overruns;
    hide Unmatched;
    hide Encoded;
    j', rest', ls' := j, rest, ls;
    ghost var es, p := table.labels, buf[..j];
    if Overruns(bufLen, start, name, es[..n]) {
      OverrunsGoesOn(p, bufLen, start, name, ls, rest, es, n);
      OverrunsShort(bufLen, start, name, es[..n]);
    }
    var ref := table.GetPos(rest);
    if ref >= 0 {
      assert Known(es, rest);
      KnownBefore(p, start, name, ls, rest, es, n);
      PointerLength(name, es[..n], j - start, rest);
      if j + 2 > bufLen {
        return NoRoom, j, rest, ls;
      }
      PutPointer(buf, j, ref);
      if start <= 0x4000 {
        WritingPointer(p, start, name, ls, rest, es, n, ref);
      }
      return Ended, j + 2, rest, ls;
    }
    assert !Known(es, rest);
    var k := FindDot(rest);
    SplitAtDot(rest, k);
    if k > 63 {
      LongLabel(p, start, name, ls, rest, es, n, k);
      return TooLong, j, rest, ls;
    }
    if j + k + 1 > bufLen {
      return NoRoom, j, rest, ls;
    }
    s, j', rest', ls' := WriteLabel(buf, bufLen, j, rest, k, table, mallocOk, start, name, ls, n);
  }

  // The label in the first k bytes of rest, which is the last one or ends in a dot.
  method WriteLabel(buf: array<Byte>, bufLen: nat, j: nat, rest: seq<Byte>, k: nat, table: LabelTable, mallocOk: bool,
                    ghost start: nat, ghost name: seq<Byte>, ghost ls: seq<seq<Byte>>, ghost n: nat)
      returns (s: Progress, j': nat, rest': seq<Byte>, ghost ls': seq<seq<Byte>>)
    requires start <= j && j + k + 1 <= bufLen <= buf.Length && 0 !in rest && |name| <= 255
    requires k <= 63 && k <= |rest| && DOT !in rest[..k] && (k < |rest| ==> rest[k] == DOT)
    requires Writing(buf[..j], start, name, ls, rest, table.labels, n) && n <= |table.labels|
    requires Along(name, table.labels[..n], j - start, rest) && !Known(table.labels, rest)
    requires bufLen == buf.Length ==> !Overruns(bufLen, start, name, table.labels[..n])
    requires Overruns(bufLen, start, name, table.labels[..n]) ==> |rest| > 0 && j + |rest| + 1 == bufLen
    modifies buf, table
    ensures forall i | 0 <= i < j :: buf[i] == old(buf[i])
    ensures n <= |table.labels| && table.labels[..n] == old(table.labels[..n])
    ensures Entered(old(table.labels), table.labels, rest, j, mallocOk)
    ensures s == Ended ==> Encoded(name, table.labels[..n], j' - start)
    ensures s == More || s == Ended
    ensures s == More ==>
              && j < j' <= bufLen && |rest'| < |rest| && j' + |rest'| == j + |rest| && 0 !in rest'
              && Writing(buf[..j'], start, name, ls', rest', table.labels, n)
              && Along(name, table.labels[..n], j' - start, rest')
    ensures s == Ended ==>
              j < j' <= bufLen + 1 && j' <= j + |rest| + 2 && j' <= buf.Length
                  && Done(buf[..j'], start, name, table.labels)
    ensures s == Ended && j' == bufLen + 1 ==>
              Overruns(bufLen, start, name, old(table.labels[..n])) && bufLen < buf.Length && buf[bufLen] == 0
    ensures s == Ended && Overruns(bufLen, start, name, old(table.labels[..n])) ==> j' == bufLen + 1
  {
    hide Writing; hide Done; hide Split; hide Along; hide Overruns; hide Known; hide Encoded;
    ghost var es, p := table.labels, buf[..j];
    var added := table.Add(rest, j, mallocOk);
    EnteredIs(es, table.labels, rest, j, mallocOk);
    hide Entered;
    assert table.labels[..n] == es[..n];
    if k == |rest| {
      assert rest[..k] == rest;
      if k > 0 && j + k + 1 == bufLen {
        LastOverruns(p, bufLen, start, name, ls, rest, es, n);
      }
      j' := PutLast(buf, j, rest);
      WritingLast(p, start, name, ls, rest, es, n, table.labels, buf[..j']);
      NotKnownBefore(es, n, rest);
      PlainLength(name, es[..n], j - start, rest);
      s, rest', ls' := Ended, rest, ls;
    } else {
      AlongMore(name, es, n, j - start, rest, k);
      PutLabel(buf, j, rest[..k]);
      WritingStep(p, start, name, ls, rest, es, n, k, table.labels);
      s, j', rest', ls' := More, j + 1 + k, rest[k + 1..], ls + [rest[..k]];
    }
  }

  lemma OverrunsShort(bufLen: nat, start: nat, name: seq<Byte>, es: seq<Entry>)
    requires Overruns(bufLen, start, name, es)
    ensures Short(Split(name)) && start + |name| + 1 == bufLen
  {
  }

  /** A text that the table did not know is entered with its place, if there is room and memory. */
  ghost predicate Entered(es0: seq<Entry>, es: seq<Entry>, text: seq<Byte>, pos: nat, memory: bool) {
    && es0 <= es
    && (memory && |es0| < MAX_LABELS && !Known(es0, text) ==> |es| > |es0| && es[|es0|] == Entry(text, pos))
  }

  lemma EnteredIs(es0: seq<Entry>, es: seq<Entry>, text: seq<Byte>, pos: nat, memory: bool)
    requires es == if |es0| < MAX_LABELS && memory then es0 + [Entry(text, pos)] else es0
    ensures Entered(es0, es, text, pos, memory)
  {
  }

  lemma AlongMore(name: seq<Byte>, es: seq<Entry>, n: nat, at: nat, rest: seq<Byte>, k: nat)
    requires n <= |es| && Along(name, es[..n], at, rest) && k < |rest| && DOT !in rest[..k] && rest[k] == DOT
              && !Known(es, rest)
    ensures Along(name, es[..n], at + k + 1, rest[k + 1..])
  {
    assert forall i | 0 <= i < n :: es[..n][i] == es[i];
    assert !Known(es[..n], rest);
    AlongStep(name, es[..n], at, rest, k);
  }

  /**
    dnsname_to_labels; memory(j) is what mm_strdup says of the entry for place j. A call
    without a table is one with an empty table and no memory for entries. The final zero
    byte is written without looking at bufLen: one cell behind the end exactly when Overruns
    says so beforehand, and then there has to be such a cell.
  */
  method DnsnameToLabels(
    buf: array<Byte>, bufLen: nat, start: nat, name: seq<Byte>, table: LabelTable, memory: nat -> bool)
    returns (r: int)
    requires start <= bufLen <= buf.Length && 0 !in name
    requires TableOk(buf[..start], table.labels)
    requires bufLen == buf.Length ==> !Overruns(bufLen, start, name, table.labels)
    modifies buf, table
    ensures r < 0 ==> r == -1 || r == -2
    ensures r >= 0 ==> start < r <= bufLen + 1 && r <= buf.Length && r <= start + |name| + 2
    ensures r == bufLen + 1 <==> Overruns(bufLen, start, name, old(table.labels))
    ensures r == bufLen + 1 ==> buf[bufLen] == 0
    ensures forall i | 0 <= i < start :: buf[i] == old(buf[i])
    ensures r >= 0 && start <= 0x4000 ==> Done(buf[..r], start, name, table.labels)
    ensures r >= 0 ==> Encoded(name, old(table.labels), r - start)
    ensures Entered(old(table.labels), table.labels, name, start, memory(start) && r >= 0)
    ensures |name| > 255 ==> r == -2
    ensures |name| <= 255 && Short(Split(name)) && start + |name| + 2 <= bufLen ==> r >= 0
  {
    hide Writing;
    hide Done;
    hide TableOk;
    hide Split;
    if |name| > 255 {
      NotOverruns(bufLen, start, name, table.labels);
      return -2;
    }
    hide Overruns;
    var j, rest := start, name;
    ghost var ls: seq<seq<Byte>> := [];
    ghost var es, n := table.labels, |table.labels|;
    assert es[..n] == es;
    WritingStart(buf[..start], name, es);
    AlongStart(name, es);
    hide Along; hide Encoded; hide Entered;
    EnteredNone(es, name, start);
    var s := More;
    while s == More
      invariant es <= table.labels && (j == start && s == More ==> table.labels == es && rest == name)
      invariant Entered(es, table.labels, name, start, memory(start) && (s == Ended || (s == More && j > start)))
      invariant s == Ended ==> Encoded(name, es, j - start)
      invariant s == More ==> start <= j <= bufLen && j + |rest| == start + |name| && 0 !in rest
      invariant n <= |table.labels| && table.labels[..n] == es
      invariant forall i | 0 <= i < start :: buf[i] == old(buf[i])
      invariant s == More ==>
                Writing(buf[..j], start, name, ls, rest, table.labels, n) && Along(name, es, j - start, rest)
      invariant s == Ended ==> start < j <= bufLen + 1 && j <= start + |name| + 2
      invariant s == Ended && start <= 0x4000 ==> j <= buf.Length && Done(buf[..j], start, name, table.labels)
      invariant s == TooLong ==> !Short(Split(name))
      invariant s == NoRoom ==> start + |name| + 2 > bufLen
      invariant s == Ended && j == bufLen + 1 ==>
                Overruns(bufLen, start, name, es) && bufLen < buf.Length && buf[bufLen] == 0
      invariant Overruns(bufLen, start, name, es) ==> s == More || (s == Ended && j == bufLen + 1)
      decreases s == More, |rest|
    {
      ghost var es1, j1, rest1 := table.labels, j, rest;
      s, j, rest, ls := WriteOne(buf, bufLen, j, rest, table, memory(j), start, name, ls, n);
      EnteredOn(es, es1, table.labels, name, start, rest1, j1, memory(j1) && (s == More || s == Ended), memory(start));
    }
    r := if s == Ended then j else if s == TooLong then -1 else -2;
  }

  /** What compression is for: the second time a name takes two bytes. */
  method WriteTwice(
    buf: array<Byte>, bufLen: nat, start: nat, name: seq<Byte>, table: LabelTable, memory: nat -> bool)
    returns (first: int, second: int)
    requires start + 2 * (|name| + 2) <= bufLen <= buf.Length && start <= 0x3000 && 0 !in name
    requires |name| <= 255 && Short(Split(name)) && TableOk(buf[..start], table.labels)
    requires memory(start) && |table.labels| < MAX_LABELS
    modifies buf, table
    ensures start < first <= start + |name| + 2 && second == first + 2
  {
    hide Split; hide TableOk; hide Done; hide Overruns; hide Encoded; hide Entered;
    assert !Overruns(bufLen, start, name, table.labels) by { InRoom(bufLen, start, name, table.labels); }
    ghost var es := table.labels;
    first := DnsnameToLabels(buf, bufLen, start, name, table, memory);
    DoneReads(buf[..first], start, first, name, table.labels);
    NowKnown(es, table.labels, name, start);
    InRoom(bufLen, first, name, table.labels);
    ghost var es1 := table.labels;
    second := DnsnameToLabels(buf, bufLen, first, name, table, memory);
    KnownIsShort(name, es1, second - first);
  }

  lemma NowKnown(es0: seq<Entry>, es: seq<Entry>, name: seq<Byte>, start: nat)
    requires Entered(es0, es, name, start, true) && |es0| < MAX_LABELS
    ensures Known(es, name)
  {
    if i :| 0 <= i < |es0| && es0[i].v == name {
      assert es[i].v == name;
    }
  }

  lemma EnteredNone(es: seq<Entry>, text: seq<Byte>, pos: nat)
    ensures Entered(es, es, text, pos, false)
  {
  }

  lemma EnteredOn(
    es0: seq<Entry>, es1: seq<Entry>, es: seq<Entry>, name: seq<Byte>, start: nat, rest: seq<Byte>, j: nat, now: bool,
    memory: bool)
    requires Entered(es0, es1, name, start, memory && j > start) && Entered(es1, es, rest, j, now)
    requires j >= start && (j == start ==> es1 == es0 && rest == name)
    ensures es0 <= es && Entered(es0, es, name, start, if j > start then memory else now)
  {
  }

  lemma NotOverruns(bufLen: nat, start: nat, name: seq<Byte>, es: seq<Entry>)
    requires |name| > 255
    ensures !Overruns(bufLen, start, name, es)
  {
  }

  lemma AlongStart(name: seq<Byte>, es: seq<Entry>)
    ensures Along(name, es, 0, name)
  {
  }

  /** The name "ab" and a length of 3: the cell behind is written. */
  method ExactFitWritesBehind(buf: array<Byte>) returns (r: int)
    requires buf.Length == 4 && buf[3] != 0
    modifies buf
    ensures r == 4 && buf[3] == 0 != old(buf[3])
  {
    var table := new LabelTable();
    var name: seq<Byte> := [97, 98];
    assert name[..2] == name;
    SplitAtDot(name, 2);
    assert Overruns(3, 0, name, []);
    assert buf[..0] == [];
    r := DnsnameToLabels(buf, 3, 0, name, table, _ => true);
  }

  lemma LongLabel(
    p: seq<Byte>, start: nat, name: seq<Byte>, ls: seq<seq<Byte>>, rest: seq<Byte>, es: seq<Entry>, n: nat, k: nat)
    requires Writing(p, start, name, ls, rest, es, n) && 63 < k <= |rest|
    requires Split(rest) == if k == |rest| then [rest] else [rest[..k]] + Split(rest[k + 1..])
    ensures !Short(Split(name))
  {
    assert Split(name)[|ls|] == rest[..k];
  }

  // ------------------------------------------------------------------------
  // Reading back

  ghost function JoinedLength(ls: seq<seq<Byte>>): (n: nat) {
    if |ls| == 0 then 0 else |ls[0]| + (if |ls| > 1 then 1 else 0) + JoinedLength(ls[1..])
  }

  lemma {:induction false} JoinLength(ls: seq<seq<Byte>>)
    ensures |Join(ls)| == JoinedLength(ls)
    decreases |ls|
  {
    if |ls| > 0 {
      JoinLength(ls[1..]);
    }
  }

  lemma {:induction false} UntilEmptyShortens(ls: seq<seq<Byte>>)
    ensures JoinedLength(UntilEmpty(ls)) <= JoinedLength(ls)
    ensures !NoneEmpty(ls) && JoinedLength(ls) > 0 ==> JoinedLength(UntilEmpty(ls)) < JoinedLength(ls)
    decreases |ls|
  {
    if |ls| > 0 && |ls[0]| > 0 {
      UntilEmptyShortens(ls[1..]);
      assert UntilEmpty(ls)[1..] == UntilEmpty(ls[1..]);
      assert ls == [ls[0]] + ls[1..];
      UntilEmptyNoneEmpty(ls[1..]);
    }
  }

  /** A name comes back as it was exactly when it has no empty label, or is empty. */
  lemma {:induction false} CanonicalIff(name: seq<Byte>)
    ensures Canonical(name) == name <==> NoneEmpty(Split(name)) || name == []
    ensures |Canonical(name)| <= |name|
  {
    var ls := Split(name);
    JoinSplit(name);
    JoinLength(ls);
    JoinLength(UntilEmpty(ls));
    UntilEmptyShortens(ls);
    if NoneEmpty(ls) {
      UntilEmptyAll(ls);
    }
  }

  /** Where a name has been written, name_parse returns what a reader can see of it. */
  lemma {:induction false} ReadBack(p: seq<Byte>, start: nat, name: seq<Byte>, outLen: nat)
    requires Ends(p, start, start, UntilEmpty(Split(name))) >= 0 && |Canonical(name)| < outLen
    ensures ParseFrom(p, start, [], outLen, -1, 0)
              == Name(Canonical(name), Ends(p, start, start, UntilEmpty(Split(name))))
  {
    var ls := UntilEmpty(Split(name));
    UntilEmptyNoneEmpty(Split(name));
    JoinOntoIsJoin([], ls);
    assert [] + Join(ls) == Join(ls);
    ParseReads(p, start, start, ls, [], outLen, -1, 0);
  }

  /** A name and the bytes of the message in front of it. */
  datatype Item = Item(gap: seq<Byte>, name: seq<Byte>)

  // Labels of at most 63 bytes, at most 255 in all.
  ghost predicate WellFormed(name: seq<Byte>) {
    |name| <= 255 && Short(Split(name))
  }

  // What the items take at most, each name with a byte in front and one behind.
  ghost function RoomFor(items: seq<Item>): (n: nat) {
    if |items| == 0 then 0 else |items[0].gap| + |items[0].name| + 2 + RoomFor(items[1..])
  }

  // Between `start` and `end` of the message p stands this name.
  ghost predicate Reads(p: seq<Byte>, start: nat, end: nat, name: seq<Byte>) {
    && start <= end <= |p| && |name| <= 255
    && Ends(p, start, start, UntilEmpty(Split(name))) >= 0
    && (Regular(name) ==> Ends(p, start, start, UntilEmpty(Split(name))) == end)
  }

  lemma {:induction false} ReadsExtend(p: seq<Byte>, q: seq<Byte>, start: nat, end: nat, name: seq<Byte>)
    requires p <= q && Reads(p, start, end, name)
    ensures Reads(q, start, end, name)
  {
    EndsExtend(p, q, start, start, UntilEmpty(Split(name)));
  }

  lemma CanonicalOfEmptyLabel()
    ensures Canonical([97, DOT, DOT, 98]) == [97]
  {
    var name: seq<Byte> := [97, DOT, DOT, 98];
    SplitAtDot(name, 1);
    assert name[..1] == [97] && name[2..] == [DOT, 98];
    SplitAtDot(name[2..], 0);
    assert name[2..][..0] == [];
    hide Split;
    assert Split(name) == [[97]] + ([[]] + Split(name[2..][1..]));
    assert Split(name)[0] == [97] && Split(name)[1..][0] == [];
    assert UntilEmpty(Split(name)[1..]) == [];
    assert UntilEmpty(Split(name)) == [[97]] + [];
  }

  /** "a..b" goes out whole, and name_parse makes "a" of it. */
  lemma EmptyLabelEndsName(p: seq<Byte>, start: nat, end: nat)
    requires Reads(p, start, end, [97, DOT, DOT, 98])
    ensures ParseFrom(p, start, [], 256, -1, 0).Name? && ParseFrom(p, start, [], 256, -1, 0).text == [97]
  {
    CanonicalOfEmptyLabel();
    ReadBack(p, start, [97, DOT, DOT, 98], 256);
  }

  // Other parts of the message between the names.
  method PutGap(buf: array<Byte>, j: nat, gap: seq<Byte>)
    requires j + |gap| <= buf.Length
    modifies buf
    ensures buf[..j + |gap|] == old(buf[..j]) + gap
    ensures forall i | 0 <= i < j :: buf[i] == old(buf[i])
  {
    ghost var before := buf[..j];
    forall i | 0 <= i < |gap| {
      buf[j + i] := gap[i];
    }
    assert buf[..j] == before && buf[j..j + |gap|] == gap;
    assert buf[..j + |gap|] == buf[..j] + buf[j..j + |gap|];
  }

  /**
    A message of many names sharing one table: every name reads back at its start,
    with the index behind its own encoding, whatever was written after it.
  */
  method WriteMessage(buf: array<Byte>, bufLen: nat, items: seq<Item>, memory: nat -> bool)
    returns (ok: bool, starts: seq<nat>, ends: seq<nat>, len: nat)
    requires bufLen <= buf.Length && bufLen <= 0x4000
    requires forall i | 0 <= i < |items| :: 0 !in items[i].name
    modifies buf
    ensures ok ==> len <= bufLen && |starts| == |ends| == |items|
    ensures ok ==> forall i | 0 <= i < |items| :: Reads(buf[..len], starts[i], ends[i], items[i].name)
    ensures ok ==> Laid(buf[..len], items, starts, ends) && len == if |items| == 0 then 0 else ends[|items| - 1]
    ensures (forall i | 0 <= i < |items| :: WellFormed(items[i].name)) && RoomFor(items) <= bufLen ==> ok
  {
    hide Ends; hide Split; hide UntilEmpty; hide Reads; hide TableOk; hide Done; hide RoomFor; hide WellFormed;
    hide Overruns; hide Laid; hide Encoded; hide Entered;
    TableEmpty();
    LaidNone(buf[..0]);
    var table := new LabelTable();
    starts, ends, len := [], [], 0;
    assert items[0..] == items;
    while |starts| < |items|
      invariant fresh(table) && len <= bufLen && |starts| == |ends| <= |items|
      invariant RoomFor(items) <= bufLen ==> len + RoomFor(items[|starts|..]) <= bufLen
      invariant TableOk(buf[..len], table.labels)
      invariant forall i | 0 <= i < |starts| :: Reads(buf[..len], starts[i], ends[i], items[i].name)
      invariant Laid(buf[..len], items[..|starts|], starts, ends)
      invariant len == if |starts| == 0 then 0 else ends[|starts| - 1]
      decreases |items| - |starts|
    {
      var item := items[|starts|];
      RoomNext(items, |starts|);
      var start := len + |item.gap|;
      if start > bufLen {
        return false, starts, ends, len;
      }
      ghost var p := buf[..len];
      PutGap(buf, len, item.gap);
      TableExtend(p, buf[..start], table.labels);
      ghost var q := buf[..start];
      if start + |item.name| + 2 <= bufLen {
        InRoom(bufLen, start, item.name, table.labels);
      }
      if bufLen == buf.Length && Overruns(bufLen, start, item.name, table.labels) {
        // the source writes behind the buffer here, and finds it too short afterwards
        return false, starts, ends, len;
      }
      var r := DnsnameToLabels(buf, bufLen, start, item.name, table, memory);
      if r < 0 || r > bufLen {
        NotWellFormed(item.name);
        return false, starts, ends, len;
      }
      assert buf[..r][..start] == q && q[..len] == p;
      assert p <= buf[..r];
      DoneReads(buf[..r], start, r, item.name, table.labels);
      forall i | 0 <= i < |starts| ensures Reads(buf[..r], starts[i], ends[i], items[i].name) {
        ReadsExtend(p, buf[..r], starts[i], ends[i], items[i].name);
      }
      LaidMore(p, buf[..r], items, starts, ends, start, r);
      starts, ends, len := starts + [start], ends + [r], r;
    }
    assert items[..|starts|] == items;
    ok := true;
  }

  /** Each name stands behind its gap, and each gap behind the name before. */
  ghost predicate Laid(p: seq<Byte>, items: seq<Item>, starts: seq<nat>, ends: seq<nat>) {
    && |starts| == |ends| == |items|
    && forall i | 0 <= i < |items| ::
      && starts[i] == (if i == 0 then 0 else ends[i - 1]) + |items[i].gap| <= |p|
      && p[starts[i] - |items[i].gap|..starts[i]] == items[i].gap
  }

  lemma LaidNone(p: seq<Byte>)
    ensures Laid(p, [], [], [])
  {
  }

  lemma {:induction false} LaidMore(
    p: seq<Byte>, q: seq<Byte>, items: seq<Item>, starts: seq<nat>, ends: seq<nat>, start: nat, end: nat)
    requires |starts| < |items| && Laid(p, items[..|starts|], starts, ends) && p <= q
    requires |p| == if |starts| == 0 then 0 else ends[|starts| - 1]
    requires var gap := items[|starts|].gap; start == |p| + |gap| <= |q| && q[|p|..start] == gap
    ensures Laid(q, items[..|starts| + 1], starts + [start], ends + [end])
  {
    var n := |starts|;
    forall i | 0 <= i < n ensures q[starts[i] - |items[i].gap|..starts[i]] == items[i].gap {
      assert items[..n][i] == items[i];
      assert q[starts[i] - |items[i].gap|..starts[i]] == p[starts[i] - |items[i].gap|..starts[i]];
    }
  }

  lemma TableEmpty()
    ensures TableOk([], [])
  {
  }

  lemma RoomNext(items: seq<Item>, i: nat)
    requires i < |items|
    ensures RoomFor(items[i..]) == |items[i].gap| + |items[i].name| + 2 + RoomFor(items[i + 1..])
  {
    assert items[i..][0] == items[i] && items[i..][1..] == items[i + 1..];
  }

  lemma DoneReads(p: seq<Byte>, start: nat, end: nat, name: seq<Byte>, es: seq<Entry>)
    requires Done(p, start, name, es) && start <= end == |p| && |name| <= 255
    ensures Reads(p, start, end, name) && TableOk(p, es)
  {
  }

  lemma NotWellFormed(name: seq<Byte>)
    ensures WellFormed(name) ==> |name| <= 255 && Short(Split(name))
  {
  }

  lemma InRoom(bufLen: nat, start: nat, name: seq<Byte>, es: seq<Entry>)
    requires start + |name| + 2 <= bufLen
    ensures !Overruns(bufLen, start, name, es)
  {
  }

  /** Every name of a message comes back through name_parse into a 256-byte buffer. */
  lemma {:induction false} MessageReadsBack(p: seq<Byte>, start: nat, end: nat, name: seq<Byte>)
    requires Reads(p, start, end, name)
    ensures var r := ParseFrom(p, start, [], 256, -1, 0);
            && r.Name? && r.text == Canonical(name)
            && (Regular(name) ==> r.next == end)
            && (NoneEmpty(Split(name)) ==> r == Name(name, end))
  {
    CanonicalIff(name);
    ReadBack(p, start, name, 256);
    if NoneEmpty(Split(name)) {
      assert Regular(name);
    }
  }
}
