/**
  Whole runs: any sequence of the queue operations of buffer.c on two evbuffers does
  to their chains what plain append, prepend, drop, take and move do to two byte
  strings, up to a call that finds no memory.
*/
module EvbufferRuns {
  import opened Basics
  import opened Chains
  import opened Evbuffers
  import opened EvbufferReads

  datatype Side = Left | Right {
    function Other(): Side { if Left? then Right else Left }
  }

  /** One call; `on` says which buffer it is called on, the other one is its partner. */
  datatype Op =
    | OpAdd(on: Side, data: seq<Byte>)
    | OpPrepend(on: Side, data: seq<Byte>)
    | OpDrain(on: Side, len: nat)
    | OpRemove(on: Side, len: nat)
    | OpAddBuffer(on: Side)
    | OpRemoveBuffer(on: Side, len: nat)
    | OpPullup(on: Side, size: int)
    | OpRead(on: Side, arriving: seq<Byte>)
    | OpFreeze(on: Side, atStart: bool, frozen: bool)

  /** A call and what the allocator says while it is made. */
  datatype Call = Call(op: Op, memory: bool)

  /** A string of bytes, with the two freezes of struct evbuffer. */
  datatype Queue = Queue(bytes: seq<Byte>, frozenStart: bool, frozenEnd: bool)

  /** Two byte queues and everything the removing calls handed out so far. */
  datatype Queues = Queues(left: Queue, right: Queue, out: seq<Byte>) {
    function Get(s: Side): Queue { if s.Left? then left else right }
    function Set(s: Side, q: seq<Byte>): Queues {
      if s.Left? then this.(left := left.(bytes := q)) else this.(right := right.(bytes := q))
    }
    function Mark(s: Side, q: Queue): Queues { if s.Left? then this.(left := q) else this.(right := q) }
  }

  function Min(a: nat, b: nat): nat { if a < b then a else b }

  // A frozen end turns the call down.
  predicate Refused(q: Queues, op: Op) {
    var mine, other := q.Get(op.on), q.Get(op.on.Other());
    match op
    case OpAdd(_, _) => mine.frozenEnd
    case OpPrepend(_, _) => mine.frozenStart
    case OpDrain(_, _) => mine.frozenStart
    case OpRemove(_, _) => mine.frozenStart
    case OpAddBuffer(_) => mine.frozenEnd || other.frozenStart
    case OpRemoveBuffer(_, _) => other.frozenEnd || mine.frozenStart
    case OpRead(_, _) => mine.frozenEnd
    case _ => false
  }

  // What the call means for queues of bytes.
  function Step(q: Queues, op: Op): (r: Queues) {
    var mine, other := q.Get(op.on).bytes, q.Get(op.on.Other()).bytes;
    if Refused(q, op) then q
    else match op
      case OpAdd(s, data) => q.Set(s, mine + data)
      case OpPrepend(s, data) => q.Set(s, data + mine)
      case OpDrain(s, len) => q.Set(s, mine[Min(len, |mine|)..])
      case OpRemove(s, len) => q.Set(s, mine[Min(len, |mine|)..]).(out := q.out + mine[..Min(len, |mine|)])
      case OpAddBuffer(s) => q.Set(s, mine + other).Set(s.Other(), [])
      case OpRemoveBuffer(s, len) => q.Set(s, mine[Min(len, |mine|)..]).Set(s.Other(), other + mine[..Min(len, |mine|)])
      case OpPullup(s, size) => q
      case OpRead(s, arriving) => q.Set(s, mine + arriving)
      case OpFreeze(s, atStart, frozen) => q.Mark(s, if atStart then q.Get(s).(frozenStart := frozen)
          else q.Get(s).(frozenEnd := frozen))
  }

  ghost function Run(q: Queues, calls: seq<Call>): (r: Queues) {
    if |calls| == 0 then q else Step(Run(q, calls[..|calls| - 1]), calls[|calls| - 1].op)
  }

  // How many bytes the operation takes in from outside.
  function Input(q: Queues, op: Op): (n: nat) {
    if Refused(q, op) then 0
    else match op
      case OpAdd(_, data) => |data|
      case OpPrepend(_, data) => |data|
      case OpRead(_, arriving) => |arriving|
      case _ => 0
  }

  function Discarded(q: Queues, op: Op): (n: nat) {
    if op.OpDrain? && !Refused(q, op) then Min(op.len, |q.Get(op.on).bytes|) else 0
  }

  function Offered(op: Op): (n: nat) {
    match op
    case OpAdd(_, data) => |data|
    case OpPrepend(_, data) => |data|
    case OpRead(_, arriving) => |arriving|
    case _ => 0
  }

  // The operation is within the sizes a 32-bit size_t can name, and an ev_ssize_t for pullup
  // and remove.
  ghost predicate Fits(q: Queues, op: Op) {
    && |q.left.bytes| + |q.right.bytes| + Offered(op) <= CHAIN_MAX - CHAIN_SIZE
    && (op.OpRead? ==> |op.arriving| <= EVBUFFER_MAX_READ)
    && (op.OpRemove? ==> Min(op.len, |q.Get(op.on).bytes|) <= SSIZE_MAX)
    && (op.OpPullup? ==> op.size <= SSIZE_MAX && (op.size >= 0 || |q.Get(op.on).bytes| <= SSIZE_MAX))
  }

  ghost predicate AllFit(q: Queues, calls: seq<Call>) {
    forall i | 0 <= i < |calls| :: Fits(Run(q, calls[..i]), calls[i].op)
  }

  // The calls that may have to allocate.
  predicate MayAllocate(op: Op) {
    op.OpAdd? || op.OpPrepend? || op.OpRemoveBuffer? || op.OpRead?
  }

  ghost predicate Holds(a: Evbuffer, q: Queue)
    reads a
  {
    a.Valid() && a.Contents() == q.bytes && a.freezeStart == q.frozenStart && a.freezeEnd == q.frozenEnd
  }

  // The two buffers hold these queues.
  ghost predicate Refines(a: Evbuffer, b: Evbuffer, q: Queues)
    reads a, b
  {
    a != b && Holds(a, q.left) && Holds(b, q.right)
  }

  /** What decides whether a call needs memory: the chains, the one that takes more data, the gap in front. */
  datatype Shape = Shape(chains: seq<Chain>, tail: Option<Chain>, gap: nat, len: nat)

  ghost predicate ShapeOk(s: Shape) {
    AllOk(s.chains) && (s.tail.Some? ==> s.tail.value.Ok())
  }

  ghost function ShapeOf(a: Evbuffer): (s: Shape)
    requires a.Valid()
    reads a
    ensures ShapeOk(s) && Flat(s.chains) == a.Contents()
  {
    Shape(a.chains, a.Tail(), a.FrontGap(), a.totalLen)
  }

  // The call on a buffer of the first shape, with a partner of the second, does without new
  // memory, as its caller could tell beforehand. Of a read nothing is said.
  ghost predicate InPlace(s: Shape, p: Shape, op: Op)
    requires ShapeOk(s) && ShapeOk(p)
  {
    match op
    case OpAdd(_, data) => Takes(s.tail, |data|)
    case OpPrepend(_, data) => |s.chains| > 0 && s.gap >= |data|
    case OpRemoveBuffer(_, len) =>
      || len == 0 || len >= s.len
      || forall k: nat | Holding(s.chains, k, len) :: CanMove(s.chains, k, p.tail, p.len, len, false)
    case OpRead(_, _) => false
    case _ => true
  }

  /**
    A call that takes in data; it does so in place whatever the allocator says. A refusal is what
    it means when frozen.
  */
  method TakeIn(a: Evbuffer, b: Evbuffer, op: Op, memory: bool, ghost q: Queues) returns (ok: bool)
    requires Refines(a, b, q) && Fits(q, op) && op.on == Left && (op.OpAdd? || op.OpPrepend? || op.OpRead?)
    modifies a
    ensures ok ==> Refines(a, b, Step(q, op))
    ensures memory || Refused(q, op) ==> ok
    ensures !op.OpRead? ==> (ok <==> memory || Refused(q, op) || InPlace(old(ShapeOf(a)), old(ShapeOf(b)), op))
    ensures !ok && !op.OpPrepend? ==> Refines(a, b, q)
  {
    hide Flat; hide DataPrefix; hide Takes;
    if op.OpAdd? {
      var r := a.Add(op.data, memory);
      ok := r == 0 || a.freezeEnd;
    } else if op.OpPrepend? {
      var r := a.Prepend(op.data, memory);
      ok := r == 0 || a.freezeStart;
    } else {
      var r := Read(a, |op.arriving|, 0, Some(op.arriving), memory);
      ok := r != -1 || a.freezeEnd;
    }
  }

  /** A call that moves bytes to the other buffer, all of them or those asked for. */
  method MoveOver(a: Evbuffer, b: Evbuffer, op: Op, memory: bool, ghost q: Queues) returns (ok: bool)
    requires Refines(a, b, q) && Fits(q, op) && op.on == Left && (op.OpAddBuffer? || op.OpRemoveBuffer?)
    modifies a, b
    ensures ok ==> Refines(a, b, Step(q, op))
    ensures ok <==> memory || Refused(q, op) || InPlace(old(ShapeOf(a)), old(ShapeOf(b)), op)
  {
    hide Flat; hide DataPrefix; hide CanMove; hide Takes;
    if op.OpAddBuffer? {
      assert q.left.bytes + [] == q.left.bytes;
      var r := a.AddBuffer(b);
      ok := true;
    } else {
      hide Step; hide InPlace; hide ShapeOf; hide Refused;
      ok := MoveSome(a, b, op.len, memory, q);
    }
  }

  method MoveSome(a: Evbuffer, b: Evbuffer, len: nat, memory: bool, ghost q: Queues) returns (ok: bool)
    requires Refines(a, b, q) && Fits(q, OpRemoveBuffer(Left, len))
    modifies a, b
    ensures ok ==> Refines(a, b, Step(q, OpRemoveBuffer(Left, len)))
    ensures ok <==> memory || Refused(q, OpRemoveBuffer(Left, len))
                    || InPlace(old(ShapeOf(a)), old(ShapeOf(b)), OpRemoveBuffer(Left, len))
  {
    hide Flat; hide DataPrefix; hide CanMove; hide Takes; hide Holding;
    assert q.left.bytes[0..] == q.left.bytes && q.right.bytes + q.left.bytes[..0] == q.right.bytes;
    var before := a.totalLen + b.totalLen;
    ghost var chains0 := a.chains;
    if 0 < len < a.totalLen {
      BytesBeforeEnd(chains0);
      var k := SomeHolds(chains0, |chains0|, len);
    }
    var r, lost := a.RemoveBuffer(b, len, memory);
    // nothing but the lengths tells the caller of a loss
    ok := a.totalLen + b.totalLen == before;
    assert ok <==> lost == 0;
  }

  /** evbuffer_remove into memory of its own. */
  method Take(a: Evbuffer, b: Evbuffer, len: nat, ghost q: Queues) returns (out: seq<Byte>)
    requires Refines(a, b, q) && Fits(q, OpRemove(Left, len))
    modifies a
    ensures var r := Step(q, OpRemove(Left, len)); Refines(a, b, r) && r.out == q.out + out
  {
    hide Flat; hide DataPrefix;
    var n := if len < a.totalLen then len else a.totalLen;
    var mem := new Byte[len];
    var r := a.Remove(mem, len);
    if r == -1 {
      assert q.out + [] == q.out;
      return [];
    }
    out := mem[..n];
    assert out == q.left.bytes[..n];
    if q.left.frozenStart {
      assert n == 0 && q.left.bytes[0..] == q.left.bytes;
      assert q.out + [] == q.out;
    }
  }

  /** A call that drops or rearranges bytes or freezes an end. */
  method Arrange(a: Evbuffer, b: Evbuffer, op: Op, memory: bool, ghost q: Queues)
    requires Refines(a, b, q) && Fits(q, op) && op.on == Left && (op.OpDrain? || op.OpPullup? || op.OpFreeze?)
    modifies a
    ensures Refines(a, b, Step(q, op)) && Step(q, op).out == q.out
  {
    hide Flat; hide DataPrefix; hide PullsUp;
    match op {
      case OpDrain(_, len) =>
        var r := a.Drain(len);
      case OpPullup(_, size) =>
        var ok := a.Pullup(size, memory);
      case OpFreeze(_, atStart, frozen) =>
        if atStart {
          a.freezeStart := frozen;
        } else {
          a.freezeEnd := frozen;
        }
      case _ =>
    }
  }

  /** One call on `a`, with `b` as its partner; `out` gets what was removed. */
  method Perform(a: Evbuffer, b: Evbuffer, op: Op, memory: bool, ghost q: Queues) returns (out: seq<Byte>, ok: bool)
    requires Refines(a, b, q) && Fits(q, op) && op.on == Left
    modifies a, b
    ensures ok ==> Refines(a, b, Step(q, op)) && Step(q, op).out == q.out + out
    ensures memory || Refused(q, op) ==> ok
    ensures !op.OpRead? ==> (ok <==> memory || Refused(q, op) || InPlace(old(ShapeOf(a)), old(ShapeOf(b)), op))
    ensures !ok && (op.OpAdd? || op.OpRead?) ==> Refines(a, b, q) && out == []
  {
    hide Refines; hide Fits;
    assert q.out + [] == q.out;
    out := [];
    if op.OpAdd? || op.OpPrepend? || op.OpRead? {
      var taken := TakeIn(a, b, op, memory, q);
      ok := taken;
    } else if op.OpAddBuffer? || op.OpRemoveBuffer? {
      ok := MoveOver(a, b, op, memory, q);
    } else if op.OpRemove? {
      out := Take(a, b, op.len, q);
      ok := true;
    } else {
      Arrange(a, b, op, memory, q);
      ok := true;
    }
  }

  function Swap(q: Queues): Queues { Queues(q.right, q.left, q.out) }

  lemma {:induction false} StepOnRight(q: Queues, op: Op)
    requires op.on == Right
    ensures Step(q, op) == Swap(Step(Swap(q), op.(on := Left)))
    ensures Fits(q, op) <==> Fits(Swap(q), op.(on := Left))
  {
    assert Refused(q, op) <==> Refused(Swap(q), op.(on := Left));
    match op {
      case OpAdd(_, _) =>
      case OpPrepend(_, _) =>
      case OpDrain(_, _) =>
      case OpRemove(_, _) =>
      case OpAddBuffer(_) =>
      case OpRemoveBuffer(_, _) =>
      case OpPullup(_, _) =>
      case OpRead(_, _) =>
      case OpFreeze(_, _, _) =>
    }
  }

  ghost predicate InPlaceFor(left: Shape, right: Shape, op: Op)
    requires ShapeOk(left) && ShapeOk(right)
  {
    if op.on == Left then InPlace(left, right, op) else InPlace(right, left, op)
  }

  method PerformOn(a: Evbuffer, b: Evbuffer, call: Call, ghost q: Queues) returns (out: seq<Byte>, ok: bool)
    requires Refines(a, b, q) && Fits(q, call.op)
    modifies a, b
    ensures ok ==> Refines(a, b, Step(q, call.op)) && Step(q, call.op).out == q.out + out
    ensures call.memory || Refused(q, call.op) || !MayAllocate(call.op) ==> ok
    ensures !call.op.OpRead? ==>
              (ok <==> || call.memory || Refused(q, call.op)
                       || InPlaceFor(old(ShapeOf(a)), old(ShapeOf(b)), call.op))
    ensures !ok && (call.op.OpAdd? || call.op.OpRead?) ==> Refines(a, b, q) && out == []
  {
    hide Step; hide Holds; hide CanMove; hide Takes; hide Holding; hide ShapeOf;
    if call.op.on == Left {
      out, ok := Perform(a, b, call.op, call.memory, q);
    } else {
      StepOnRight(q, call.op);
      out, ok := Perform(b, a, call.op.(on := Left), call.memory, Swap(q));
    }
  }

  /**
    Every run on two buffers is the run on two byte queues, as far as its calls find the
    memory they need: `done` of them do what they are for, and the next one, if there is
    one, found buffers of the shapes l and r, which hold the bytes they should, had to
    allocate and could not.
  */
  method Execute(a: Evbuffer, b: Evbuffer, calls: seq<Call>, ghost q0: Queues)
    returns (out: seq<Byte>, done: nat, ghost l: Shape, ghost r: Shape)
    requires Refines(a, b, q0) && AllFit(q0, calls) && q0.out == []
    modifies a, b
    ensures done <= |calls|
    ensures done == |calls| ==> Refines(a, b, Run(q0, calls)) && out == Run(q0, calls).out
    ensures done < |calls| ==> MayAllocate(calls[done].op) && !calls[done].memory
    ensures done < |calls| ==>
              && ShapeOk(l) && Flat(l.chains) == Run(q0, calls[..done]).left.bytes
              && ShapeOk(r) && Flat(r.chains) == Run(q0, calls[..done]).right.bytes
              && !Refused(Run(q0, calls[..done]), calls[done].op) && !InPlaceFor(l, r, calls[done].op)
    ensures done < |calls| && (calls[done].op.OpAdd? || calls[done].op.OpRead?) ==>
              Refines(a, b, Run(q0, calls[..done])) && out == Run(q0, calls[..done]).out
  {
    hide Step; hide Fits; hide MayAllocate; hide InPlaceFor; hide ShapeOf; hide ShapeOk; hide Flat; hide Refused;
    out := [];
    l, r := ShapeOf(a), ShapeOf(b);
    done := 0;
    while done < |calls|
      invariant done <= |calls|
      invariant Refines(a, b, Run(q0, calls[..done])) && out == Run(q0, calls[..done]).out
    {
      ghost var q := Run(q0, calls[..done]);
      assert Fits(q, calls[done].op);
      assert calls[..done + 1][..done] == calls[..done];
      l, r := ShapeOf(a), ShapeOf(b);
      if calls[done].op.OpRead? {
        ReadNeeds(l, r, calls[done].op);
      }
      var more, ok := PerformOn(a, b, calls[done], q);
      if !ok {
        return;
      }
      out := out + more;
      done := done + 1;
    }
    assert calls[..done] == calls;
  }

  lemma ReadNeeds(l: Shape, r: Shape, op: Op)
    requires ShapeOk(l) && ShapeOk(r) && op.OpRead?
    ensures !InPlaceFor(l, r, op)
  {
  }

  ghost function Inputs(q: Queues, calls: seq<Call>): (n: nat) {
    if |calls| == 0 then 0
    else Inputs(q, calls[..|calls| - 1]) + Input(Run(q, calls[..|calls| - 1]), calls[|calls| - 1].op)
  }

  ghost function Drained(q: Queues, calls: seq<Call>): (n: nat) {
    if |calls| == 0 then 0
    else Drained(q, calls[..|calls| - 1]) + Discarded(Run(q, calls[..|calls| - 1]), calls[|calls| - 1].op)
  }

  /** No run makes or loses bytes: what came in is held, was handed out, or was drained. */
  lemma {:induction false} Conservation(q: Queues, calls: seq<Call>)
    ensures var r := Run(q, calls);
            |r.left.bytes| + |r.right.bytes| + |r.out| + Drained(q, calls)
                == |q.left.bytes| + |q.right.bytes| + |q.out| + Inputs(q, calls)
    decreases |calls|
  {
    if |calls| > 0 {
      Conservation(q, calls[..|calls| - 1]);
      StepConserves(Run(q, calls[..|calls| - 1]), calls[|calls| - 1].op);
    }
  }

  lemma {:induction false} StepConserves(q: Queues, op: Op)
    ensures var r := Step(q, op);
            |r.left.bytes| + |r.right.bytes| + |r.out| + Discarded(q, op)
                == |q.left.bytes| + |q.right.bytes| + |q.out| + Input(q, op)
  {
    match op {
      case OpAdd(_, _) =>
      case OpPrepend(_, _) =>
      case OpDrain(_, _) =>
      case OpRemove(_, _) =>
      case OpAddBuffer(_) =>
      case OpRemoveBuffer(_, _) =>
      case OpPullup(_, _) =>
      case OpRead(_, _) =>
      case OpFreeze(_, _, _) =>
    }
  }

  // Runs that append, take away, rearrange and freeze on the left buffer.
  predicate QueueOp(op: Op) {
    op.on == Left && (op.OpAdd? || op.OpRemove? || op.OpPullup? || op.OpRead? || op.OpFreeze?)
  }

  function Appended(q: Queues, op: Op): seq<Byte> {
    if Refused(q, op) then [] else if op.OpAdd? then op.data else if op.OpRead? then op.arriving else []
  }

  ghost function AllAppended(q: Queues, calls: seq<Call>): (s: seq<Byte>) {
    if |calls| == 0 then []
    else AllAppended(q, calls[..|calls| - 1]) + Appended(Run(q, calls[..|calls| - 1]), calls[|calls| - 1].op)
  }

  /** First in, first out: what was taken followed by what is held is what was put in. */
  lemma {:induction false} Fifo(q: Queues, calls: seq<Call>)
    requires forall i | 0 <= i < |calls| :: QueueOp(calls[i].op)
    ensures Run(q, calls).out + Run(q, calls).left.bytes == q.out + q.left.bytes + AllAppended(q, calls)
    decreases |calls|
  {
    if |calls| > 0 {
      var n := |calls| - 1;
      Fifo(q, calls[..n]);
      FifoStep(Run(q, calls[..n]), calls[n].op);
      hide Step;
      Assoc(q.out + q.left.bytes, AllAppended(q, calls[..n]), Appended(Run(q, calls[..n]), calls[n].op));
    }
  }

  lemma {:induction false} FifoStep(q: Queues, op: Op)
    requires QueueOp(op)
    ensures Step(q, op).out + Step(q, op).left.bytes == q.out + q.left.bytes + Appended(q, op)
  {
    var bytes := q.left.bytes;
    if op.OpRemove? && !Refused(q, op) {
      var k := Min(op.len, |bytes|);
      Assoc(q.out, bytes[..k], bytes[k..]);
      assert bytes[..k] + bytes[k..] == bytes;
    } else {
      Assoc(q.out, bytes, Appended(q, op));
    }
  }

  /** A failed allocation inside evbuffer_remove_buffer loses the byte it was moving, and its result does not say so. */
  method RemoveBufferCanLose(src: Evbuffer, dst: Evbuffer) returns (r: int, ghost lost: nat)
    requires src != dst && src.Valid() && dst.Valid() && !src.freezeStart && !dst.freezeEnd
    requires src.Contents() == [1, 2] && src.chains[0].off == 2 && dst.chains == []
    modifies src, dst
    ensures src.Valid() && dst.Valid() && r == 1 && lost == 1
    ensures src.Contents() == old(src.Contents())[1..] && dst.Contents() == old(dst.Contents()) == []
  {
    FlatAt(src.chains, 0);
    assert Holding(src.chains, 0, 1);
    r, lost := src.RemoveBuffer(dst, 1, false);
  }
}
