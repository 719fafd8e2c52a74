/**
  The operation table of epolltable-internal.h: for every combination of pending
  changes and previously enabled events, the one epoll_ctl call to make.
*/
module EpollTable {

  /** A set of the three kinds of interest: EV_READ, EV_WRITE, EV_CLOSED. */
  datatype Kinds = Kinds(r: bool, w: bool, c: bool) {
    predicate Empty() { !r && !w && !c }
  }

  const NONE := Kinds(false, false, false)

  /** The low two bits of a change: nothing, EV_CHANGE_ADD, EV_CHANGE_DEL, or both. */
  datatype Delta = Keep | AddIt | DelIt | Both {
    function Bits(): (n: nat)
      ensures n < 4
    {
      match this case Keep => 0 case AddIt => 1 case DelIt => 2 case Both => 3
    }

    // Whether the kind is wanted once the change is made.
    predicate Leaves(before: bool) {
      AddIt? || (Keep? && before)
    }
  }

  /** struct event_change without its edge-trigger bit */
  datatype Change = Change(fd: int, before: Kinds, read: Delta, write: Delta, close: Delta) {
    // The interest set the change asks for.
    function Wanted(): Kinds {
      Kinds(read.Leaves(before.r), write.Leaves(before.w), close.Leaves(before.c))
    }

    predicate Idle() { read.Keep? && write.Keep? && close.Keep? }

    predicate Sane() { !read.Both? && !write.Both? && !close.Both? }
  }

  datatype CtlOp = CTL_NONE | CTL_ADD | CTL_MOD | CTL_DEL | CTL_BAD

  datatype Operation = Operation(events: Kinds, op: CtlOp)

  // EPOLLIN, EPOLLOUT, EPOLLRDHUP and their unions
  const I := Kinds(true, false, false)
  const O := Kinds(false, true, false)
  const H := Kinds(false, false, true)
  const IO := Kinds(true, true, false)
  const IH := Kinds(true, false, true)
  const OH := Kinds(false, true, true)
  const IOH := Kinds(true, true, true)

  const SKIP := Operation(NONE, CTL_NONE)
  const XXX := Operation(NONE, CTL_BAD)
  function Add(k: Kinds): Operation { Operation(k, CTL_ADD) }
  function Mod(k: Kinds): Operation { Operation(k, CTL_MOD) }
  function Del(k: Kinds): Operation { Operation(k, CTL_DEL) }

  /** epoll_op_table, sixteen rows to the line */
  const TABLE: seq<seq<Operation>> := [
    [SKIP, Add(H), Del(H), XXX, Add(I), Add(IH), Add(I), XXX, Del(I), Add(H), Del(IH), XXX, XXX, XXX, XXX, XXX],
    [Add(O), Add(OH), Add(O), XXX, Add(IO), Add(IOH), Add(IO), XXX, Add(O), Add(OH), Add(O), XXX, XXX, XXX, XXX, XXX],
    [Del(O), Add(H), Del(OH), XXX, Add(I), Add(IH), Add(I), XXX, Del(IO), Add(H), Del(IOH), XXX, XXX, XXX, XXX, XXX],
    [XXX, XXX, XXX, XXX, XXX, XXX, XXX, XXX, XXX, XXX, XXX, XXX, XXX, XXX, XXX, XXX],
    [SKIP, Mod(IH), Mod(I), XXX, Mod(I), Mod(IH), Mod(I), XXX, Del(I), Mod(H), Del(IH), XXX, XXX, XXX, XXX, XXX],
    [Mod(IO), Mod(IOH), Mod(IO), XXX, Mod(IO), Mod(IOH), Mod(IO), XXX,
     Mod(O), Mod(OH), Mod(O), XXX, XXX, XXX, XXX, XXX],
    [Mod(I), Mod(IH), Mod(I), XXX, Mod(I), Mod(IH), Mod(I), XXX, Del(IO), Mod(H), Del(IOH), XXX, XXX, XXX, XXX, XXX],
    [XXX, XXX, XXX, XXX, XXX, XXX, XXX, XXX, XXX, XXX, XXX, XXX, XXX, XXX, XXX, XXX],
    [SKIP, Mod(OH), Mod(O), XXX, Mod(IO), Mod(IOH), Mod(IO), XXX, Mod(O), Mod(OH), Mod(O), XXX, XXX, XXX, XXX, XXX],
    [Mod(O), Mod(OH), Mod(O), XXX, Mod(IO), Mod(IOH), Mod(IO), XXX, Mod(O), Mod(OH), Mod(O), XXX, XXX, XXX, XXX, XXX],
    [Del(O), Mod(H), Del(OH), XXX, Mod(I), Mod(IH), Mod(I), XXX, Del(IO), Mod(H), Del(IOH), XXX, XXX, XXX, XXX, XXX],
    [XXX, XXX, XXX, XXX, XXX, XXX, XXX, XXX, XXX, XXX, XXX, XXX, XXX, XXX, XXX, XXX],
    [SKIP, Mod(IOH), Mod(IO), XXX, Mod(IO), Mod(IOH), Mod(IO), XXX, Mod(O), Mod(OH), Mod(O), XXX, XXX, XXX, XXX, XXX],
    [Mod(IO), Mod(IOH), Mod(IO), XXX, Mod(IO), Mod(IOH), Mod(IO), XXX,
     Mod(O), Mod(OH), Mod(O), XXX, XXX, XXX, XXX, XXX],
    [Mod(I), Mod(IH), Mod(I), XXX, Mod(I), Mod(IH), Mod(I), XXX, Del(IO), Mod(H), Del(IOH), XXX, XXX, XXX, XXX, XXX],
    [XXX, XXX, XXX, XXX, XXX, XXX, XXX, XXX, XXX, XXX, XXX, XXX, XXX, XXX, XXX, XXX],
    [SKIP, Mod(H), Del(H), XXX, Mod(IH), Mod(IH), Mod(I), XXX, Mod(H), Mod(H), Del(IH), XXX, XXX, XXX, XXX, XXX],
    [Mod(OH), Mod(OH), Mod(O), XXX, Mod(IOH), Mod(IOH), Mod(IO), XXX,
     Mod(OH), Mod(OH), Mod(O), XXX, XXX, XXX, XXX, XXX],
    [Mod(H), Mod(H), Del(OH), XXX, Mod(IH), Mod(IH), Mod(I), XXX, Mod(H), Mod(H), Del(IOH), XXX, XXX, XXX, XXX, XXX],
    [XXX, XXX, XXX, XXX, XXX, XXX, XXX, XXX, XXX, XXX, XXX, XXX, XXX, XXX, XXX, XXX],
    [SKIP, Mod(IH), Mod(I), XXX, Mod(IH), Mod(IH), Mod(I), XXX, Mod(H), Mod(H), Del(IH), XXX, XXX, XXX, XXX, XXX],
    [Mod(IOH), Mod(IOH), Mod(IO), XXX, Mod(IOH), Mod(IOH), Mod(IO), XXX,
     Mod(OH), Mod(OH), Mod(O), XXX, XXX, XXX, XXX, XXX],
    [Mod(IH), Mod(IH), Mod(I), XXX, Mod(IH), Mod(IH), Mod(I), XXX, Mod(H), Mod(H), Del(IOH), XXX, XXX, XXX, XXX, XXX],
    [XXX, XXX, XXX, XXX, XXX, XXX, XXX, XXX, XXX, XXX, XXX, XXX, XXX, XXX, XXX, XXX],
    [SKIP, Mod(OH), Mod(O), XXX, Mod(IOH), Mod(IOH), Mod(IO), XXX, Mod(OH), Mod(OH), Mod(O), XXX, XXX, XXX, XXX, XXX],
    [Mod(OH), Mod(OH), Mod(O), XXX, Mod(IOH), Mod(IOH), Mod(IO), XXX,
     Mod(OH), Mod(OH), Mod(O), XXX, XXX, XXX, XXX, XXX],
    [Mod(H), Mod(H), Del(OH), XXX, Mod(IH), Mod(IH), Mod(I), XXX, Mod(H), Mod(H), Del(IOH), XXX, XXX, XXX, XXX, XXX],
    [XXX, XXX, XXX, XXX, XXX, XXX, XXX, XXX, XXX, XXX, XXX, XXX, XXX, XXX, XXX, XXX],
    [SKIP, Mod(IOH), Mod(IO), XXX, Mod(IOH), Mod(IOH), Mod(IO), XXX, Mod(OH), Mod(OH), Mod(O), XXX, XXX, XXX, XXX, XXX],
    [Mod(IOH), Mod(IOH), Mod(IO), XXX, Mod(IOH), Mod(IOH), Mod(IO), XXX,
     Mod(OH), Mod(OH), Mod(O), XXX, XXX, XXX, XXX, XXX],
    [Mod(IH), Mod(IH), Mod(I), XXX, Mod(IH), Mod(IH), Mod(I), XXX, Mod(H), Mod(H), Del(IOH), XXX, XXX, XXX, XXX, XXX],
    [XXX, XXX, XXX, XXX, XXX, XXX, XXX, XXX, XXX, XXX, XXX, XXX, XXX, XXX, XXX, XXX]
  ]

  function Bit(b: bool, n: nat): nat { if b then n else 0 }

  // EPOLL_OP_TABLE_INDEX: EV_READ (2) and EV_WRITE (4) move up by five bits,
  // EV_CLOSED (0x80) by one.
  function Index(ch: Change): (i: nat)
    ensures i < 512
  {
    ch.close.Bits() + 4 * ch.read.Bits() + 16 * ch.write.Bits()
    + 32 * (Bit(ch.before.r, 2) + Bit(ch.before.w, 4)) + 2 * Bit(ch.before.c, 0x80)
  }

  lemma TableShape()
    ensures |TABLE| == 32 && forall b | 0 <= b < 32 :: |TABLE[b]| == 16
  {
  }

  function Lookup(ch: Change): Operation {
    TableShape();
    TABLE[Index(ch) / 16][Index(ch) % 16]
  }

  // What a row must say for the call to have the right effect.
  predicate RowCorrect(row: Operation, ch: Change) {
    if !ch.Sane() then row == XXX
    else if ch.Idle() then row == SKIP
    else if ch.Wanted().Empty() then row.op == CTL_DEL && !row.events.Empty()
    else row.events == ch.Wanted() && row.op == (if ch.before.Empty() then CTL_ADD else CTL_MOD)
  }

  function DeltaOf(n: nat): Delta
    requires n < 4
  {
    if n == 0 then Keep else if n == 1 then AddIt else if n == 2 then DelIt else Both
  }

  function ChangeAt(b: nat, i: nat): Change
    requires b < 32 && i < 16
  {
    Change(0, Kinds(b / 4 % 2 == 1, b / 8 % 2 == 1, b / 16 == 1), DeltaOf(i / 4), DeltaOf(b % 4), DeltaOf(i % 4))
  }

  // By the kinds enabled before; the second of each two is for a write change that deletes.

  lemma RowsOldNone()
    ensures forall b, i | 0 <= b < 2 && 0 <= i < 16 :: RowCorrect(TABLE[b][i], ChangeAt(b, i))
  {
  }

  lemma RowsOldNoneDrop()
    ensures forall b, i | 2 <= b < 4 && 0 <= i < 16 :: RowCorrect(TABLE[b][i], ChangeAt(b, i))
  {
  }

  lemma RowsOldRead()
    ensures forall b, i | 4 <= b < 6 && 0 <= i < 16 :: RowCorrect(TABLE[b][i], ChangeAt(b, i))
  {
  }

  lemma RowsOldReadDrop()
    ensures forall b, i | 6 <= b < 8 && 0 <= i < 16 :: RowCorrect(TABLE[b][i], ChangeAt(b, i))
  {
  }

  lemma RowsOldWrite()
    ensures forall b, i | 8 <= b < 10 && 0 <= i < 16 :: RowCorrect(TABLE[b][i], ChangeAt(b, i))
  {
  }

  lemma RowsOldWriteDrop()
    ensures forall b, i | 10 <= b < 12 && 0 <= i < 16 :: RowCorrect(TABLE[b][i], ChangeAt(b, i))
  {
  }

  lemma RowsOldReadWrite()
    ensures forall b, i | 12 <= b < 14 && 0 <= i < 16 :: RowCorrect(TABLE[b][i], ChangeAt(b, i))
  {
  }

  lemma RowsOldReadWriteDrop()
    ensures forall b, i | 14 <= b < 16 && 0 <= i < 16 :: RowCorrect(TABLE[b][i], ChangeAt(b, i))
  {
  }

  lemma RowsOldClosed()
    ensures forall b, i | 16 <= b < 18 && 0 <= i < 16 :: RowCorrect(TABLE[b][i], ChangeAt(b, i))
  {
  }

  lemma RowsOldClosedDrop()
    ensures forall b, i | 18 <= b < 20 && 0 <= i < 16 :: RowCorrect(TABLE[b][i], ChangeAt(b, i))
  {
  }

  lemma RowsOldReadClosed()
    ensures forall b, i | 20 <= b < 22 && 0 <= i < 16 :: RowCorrect(TABLE[b][i], ChangeAt(b, i))
  {
  }

  lemma RowsOldReadClosedDrop()
    ensures forall b, i | 22 <= b < 24 && 0 <= i < 16 :: RowCorrect(TABLE[b][i], ChangeAt(b, i))
  {
  }

  lemma RowsOldWriteClosed()
    ensures forall b, i | 24 <= b < 26 && 0 <= i < 16 :: RowCorrect(TABLE[b][i], ChangeAt(b, i))
  {
  }

  lemma RowsOldWriteClosedDrop()
    ensures forall b, i | 26 <= b < 28 && 0 <= i < 16 :: RowCorrect(TABLE[b][i], ChangeAt(b, i))
  {
  }

  lemma RowsOldAll()
    ensures forall b, i | 28 <= b < 30 && 0 <= i < 16 :: RowCorrect(TABLE[b][i], ChangeAt(b, i))
  {
  }

  lemma RowsOldAllDrop()
    ensures forall b, i | 30 <= b < 32 && 0 <= i < 16 :: RowCorrect(TABLE[b][i], ChangeAt(b, i))
  {
  }

  // The index packs the change without loss.
  lemma IndexDecodes(ch: Change)
    ensures ChangeAt(Index(ch) / 16, Index(ch) % 16) == ch.(fd := 0)
  {
    var kinds := Bit(ch.before.r, 1) + Bit(ch.before.w, 2) + Bit(ch.before.c, 4);
    var low := 4 * ch.read.Bits() + ch.close.Bits();
    var high := 4 * kinds + ch.write.Bits();
    assert Index(ch) == 16 * high + low;
    assert (16 * high + low) / 16 == high && (16 * high + low) % 16 == low;
    assert high / 4 == kinds && high % 4 == ch.write.Bits();
    assert low / 4 == ch.read.Bits() && low % 4 == ch.close.Bits();
    assert Kinds(high / 4 % 2 == 1, high / 8 % 2 == 1, high / 16 == 1) == ch.before by {
      assert high / 8 == kinds / 2 && high / 16 == kinds / 4;
    }
  }

  lemma RowsAll(b: nat, i: nat)
    requires b < 32 && i < 16
    ensures |TABLE| == 32 && |TABLE[b]| == 16 && RowCorrect(TABLE[b][i], ChangeAt(b, i))
  {
    TableShape();
    hide RowCorrect; hide TABLE; hide ChangeAt;
    if b < 2 { RowsOldNone(); }
    else if b < 4 { RowsOldNoneDrop(); }
    else if b < 6 { RowsOldRead(); }
    else if b < 8 { RowsOldReadDrop(); }
    else if b < 10 { RowsOldWrite(); }
    else if b < 12 { RowsOldWriteDrop(); }
    else if b < 14 { RowsOldReadWrite(); }
    else if b < 16 { RowsOldReadWriteDrop(); }
    else if b < 18 { RowsOldClosed(); }
    else if b < 20 { RowsOldClosedDrop(); }
    else if b < 22 { RowsOldReadClosed(); }
    else if b < 24 { RowsOldReadClosedDrop(); }
    else if b < 26 { RowsOldWriteClosed(); }
    else if b < 28 { RowsOldWriteClosedDrop(); }
    else if b < 30 { RowsOldAll(); }
    else { RowsOldAllDrop(); }
  }

  /** Every one of the 512 rows tells epoll exactly what its change asks for. */
  lemma TableCorrect(ch: Change)
    ensures RowCorrect(Lookup(ch), ch)
  {
    IndexDecodes(ch);
    hide RowCorrect; hide TABLE; hide ChangeAt; hide Index;
    RowsAll(Index(ch) / 16, Index(ch) % 16);
    SameRow(Lookup(ch), ch, ChangeAt(Index(ch) / 16, Index(ch) % 16));
  }

  // The fd has no part in it.
  lemma SameRow(row: Operation, ch: Change, other: Change)
    requires RowCorrect(row, other) && other == ch.(fd := 0)
    ensures RowCorrect(row, ch)
  {
  }
}
