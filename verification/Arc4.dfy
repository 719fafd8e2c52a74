/**
  The random generator of arc4random.c: its state, a table of 256 bytes with two indices,
  and the reduction of a 32-bit draw to a smaller range without bias.
*/
module Arc4 {
  import opened Basics
  import opened Lists

  // ------------------------------------------------------------------------
  // The table

  datatype State = State(i: Byte, j: Byte, s: seq<Byte>) {
    ghost predicate Ok() {
      |s| == 256
    }
  }

  // Every byte has its one place in the table.
  ghost predicate Permutation(s: seq<Byte>) {
    |s| == 256 && forall a, b | 0 <= a < b < 256 :: s[a] != s[b]
  }

  function Wrap(x: int): (b: Byte) {
    x % 256
  }

  function Swap(s: seq<Byte>, a: Byte, b: Byte): (r: seq<Byte>)
    requires |s| == 256
    ensures |r| == 256
  {
    s[a := s[b]][b := s[a]]
  }

  // One step of either loop; d is the byte of key, or 0 when a byte is drawn.
  function Step(st: State, d: Byte): (r: State)
    requires st.Ok()
    ensures r.Ok()
  {
    var i := Wrap(st.i + 1);
    var j := Wrap(st.j + st.s[i] + d);
    State(i, j, Swap(st.s, i, j))
  }

  // The byte that a step ends with.
  function Output(st: State): (b: Byte)
    requires st.Ok()
  {
    st.s[Wrap(st.s[st.i] as int + st.s[st.j] as int)]
  }

  // The same step taken back.
  function Unstep(st: State, d: Byte): (r: State)
    requires st.Ok()
    ensures r.Ok()
  {
    var s := Swap(st.s, st.i, st.j);
    State(Wrap(st.i - 1), Wrap(st.j - s[st.i] - d), s)
  }

  lemma SwapTwice(s: seq<Byte>, a: Byte, b: Byte)
    requires |s| == 256
    ensures Swap(Swap(s, a, b), a, b) == s
  {
  }

  lemma WrapShift(x: int, k: int)
    ensures Wrap(x + 256 * k) == Wrap(x)
  {
  }

  lemma WrapSum(x: int, y: int)
    ensures Wrap(Wrap(x + y) - y) == Wrap(x)
  {
    var k := (x + y) / 256;
    assert Wrap(x + y) == x + y - 256 * k;
    hide Wrap;
    WrapShift(x, -k);
  }

  /** No step loses anything: the state before can be had from the state after. */
  lemma {:induction false} StepBack(st: State, d: Byte)
    requires st.Ok()
    ensures Unstep(Step(st, d), d) == st
  {
    Small(st.i);
    Small(st.j);
    hide Wrap; hide Swap;
    var st' := Step(st, d);
    SwapTwice(st.s, st'.i, st'.j);
    WrapSum(st.i, 1);
    WrapSum(st.j, st.s[st'.i] + d as int);
  }

  lemma Small(b: Byte)
    ensures Wrap(b) == b
  {
  }

  lemma {:induction false} SwapPermutation(s: seq<Byte>, a: Byte, b: Byte)
    requires Permutation(s)
    ensures Permutation(Swap(s, a, b))
  {
  }

  // The key is used over and over.
  function KeyByte(dat: seq<Byte>, n: nat): (b: Byte)
    requires |dat| > 0
  {
    dat[n % |dat|]
  }

  // n steps of arc4_addrandom.
  function Keyed(st: State, dat: seq<Byte>, n: nat): (r: State)
    requires st.Ok() && |dat| > 0
    ensures r.Ok()
  {
    if n == 0 then st else Step(Keyed(st, dat, n - 1), KeyByte(dat, n - 1))
  }

  /** Any key leaves the table a permutation. */
  lemma {:induction false} KeyedPermutation(st: State, dat: seq<Byte>, n: nat)
    requires Permutation(st.s) && |dat| > 0
    ensures Permutation(Keyed(st, dat, n).s)
    decreases n
  {
    if n > 0 {
      KeyedPermutation(st, dat, n - 1);
      var before := Keyed(st, dat, n - 1);
      hide Keyed; hide Permutation; hide KeyByte; hide Wrap;
      var i := Wrap(before.i + 1);
      SwapPermutation(before.s, i, Wrap(before.j + before.s[i] + KeyByte(dat, n - 1)));
      KeyedNext(st, dat, n);
    }
  }

  lemma KeyedNext(st: State, dat: seq<Byte>, n: nat)
    requires st.Ok() && |dat| > 0 && n > 0
    ensures Keyed(st, dat, n) == Step(Keyed(st, dat, n - 1), KeyByte(dat, n - 1))
  {
  }

  lemma {:induction false} KeyedIndex(st: State, dat: seq<Byte>, n: nat)
    requires st.Ok() && |dat| > 0
    ensures Keyed(st, dat, n).i == Wrap(st.i + n)
    decreases n
  {
    hide Keyed; hide Step; hide KeyByte;
    if n == 0 {
      KeyedStart(st, dat);
      Small(st.i);
    } else {
      hide Wrap;
      KeyedIndex(st, dat, n - 1);
      KeyedNext(st, dat, n);
      WrapNext(st.i + (n - 1));
      StepIndex(Keyed(st, dat, n - 1), KeyByte(dat, n - 1));
    }
  }

  lemma WrapNext(x: int)
    ensures Wrap(Wrap(x) + 1) == Wrap(x + 1)
  {
    var k := x / 256;
    assert Wrap(x) + 1 == x + 1 - 256 * k;
    WrapShift(x + 1, -k);
  }

  lemma StepIndex(st: State, d: Byte)
    requires st.Ok()
    ensures Step(st, d).i == Wrap(st.i + 1)
  {
  }

  // A byte in the table: a permutation of 256 bytes leaves none out.
  lemma {:induction false} Onto(s: seq<Byte>, v: Byte)
    requires Permutation(s)
    ensures v in s
  {
    var q: seq<nat> := s;
    DistinctSize(q);
    AllBytes(256);
    hide Permutation;
    if v !in s {
      SubsetSize(Members(q), Upto(256) - {v});
      assert false;
    }
  }

  ghost function Upto(n: nat): (r: set<nat>) {
    if n == 0 then {} else Upto(n - 1) + {n - 1}
  }

  lemma {:induction false} AllBytes(n: nat)
    ensures |Upto(n)| == n && forall x: nat :: x in Upto(n) <==> x < n
  {
    if n > 0 {
      AllBytes(n - 1);
    }
  }

  /** static struct arc4_stream rs */
  class Generator {
    var i: Byte
    var j: Byte
    const s: array<Byte>

    ghost predicate Valid()
      reads this, s
    {
      Permutation(s[..])
    }

    ghost function Now(): (st: State)
      reads this, s
    {
      State(i, j, s[..])
    }

    /** arc4_init */
    constructor ()
      ensures Valid() && i == 0 && j == 0 && fresh(s)
      ensures forall n | 0 <= n < 256 :: s[n] == n
    {
      i, j := 0, 0;
      s := new Byte[256](n => if 0 <= n < 256 then n else 0);
    }

    // The exchange that both loops make.
    method Exchange(d: Byte)
      requires Valid()
      modifies this`i, this`j, s
      ensures Valid() && Now() == Step(old(Now()), d)
    {
      ghost var st := Now();
      i := Wrap(i + 1);
      var si := s[i];
      j := Wrap(j + si + d);
      s[i] := s[j];
      s[j] := si;
      assert s[..] == Swap(st.s, i, j);
      SwapPermutation(st.s, i, j);
    }

    /** arc4_addrandom */
    method AddRandom(dat: seq<Byte>)
      requires Valid() && |dat| > 0
      modifies this`i, this`j, s
      ensures Valid() && s[..] == Keyed(old(Now()).(i := Wrap(old(i) - 1)), dat, 256).s
      ensures i == Wrap(old(i) - 1) && j == i
    {
      ghost var st := Now().(i := Wrap(i - 1));
      i := Wrap(i - 1);
      hide Permutation; hide Step; hide Keyed;
      KeyedStart(st, dat);
      for n := 0 to 256
        invariant Valid() && Now() == Keyed(st, dat, n)
      {
        KeyedNext(st, dat, n + 1);
        assert dat[n % |dat|] == KeyByte(dat, n);
        Exchange(dat[n % |dat|]);
      }
      KeyedIndex(st, dat, 256);
      j := i;
    }

    /** arc4_getbyte */
    method GetByte() returns (b: Byte)
      requires Valid()
      modifies this`i, this`j, s
      ensures Valid() && Now() == Step(old(Now()), 0)
      ensures b == Output(Now())
      ensures i == (old(i) + 1) % 256 && j == (old(j) as int + old(s[..])[i] as int) % 256
      ensures s[..] == old(s[..])[i := old(s[..])[j]][j := old(s[..])[i]] && b == s[(s[i] as int + s[j] as int) % 256]
    {
      Exchange(0);
      b := s[Wrap(s[i] as int + s[j] as int)];
    }
  }

  // ------------------------------------------------------------------------
  // The key schedule of RC4

  /** The index j and the table after n steps of the key schedule, as RC4 defines it. */
  ghost function Schedule(key: seq<Byte>, n: nat): (r: (int, seq<Byte>))
    requires |key| > 0 && n <= 256
    ensures 0 <= r.0 < 256 && |r.1| == 256
  {
    if n == 0 then (0, seq(256, x requires 0 <= x < 256 => x))
    else
      var p := Schedule(key, n - 1);
      var j := (p.0 + p.1[n - 1] + key[(n - 1) % |key|]) % 256;
      (j, p.1[n - 1 := p.1[j]][j := p.1[n - 1]])
  }

  lemma {:induction false} ScheduleIs(st: State, key: seq<Byte>, n: nat)
    requires |key| > 0 && n <= 256 && st == State(255, 0, Schedule(key, 0).1)
    ensures st.Ok() && Keyed(st, key, n) == State(Wrap(n - 1), Schedule(key, n).0, Schedule(key, n).1)
    decreases n
  {
    hide Keyed; hide Schedule; hide Step;
    if n == 0 {
      KeyedStart(st, key);
      ScheduleStart(key);
    } else {
      ScheduleIs(st, key, n - 1);
      KeyedNext(st, key, n);
      OneScheduled(key, n);
    }
  }

  lemma ScheduleStart(key: seq<Byte>)
    requires |key| > 0
    ensures Schedule(key, 0).0 == 0 && Wrap(-1) == 255
  {
  }

  lemma {:induction false} OneScheduled(key: seq<Byte>, n: nat)
    requires |key| > 0 && 0 < n <= 256
    ensures var p, q := Schedule(key, n - 1), Schedule(key, n);
            Step(State(Wrap(n - 2), p.0, p.1), KeyByte(key, n - 1)) == State(Wrap(n - 1), q.0, q.1)
  {
    WrapNext(n - 2);
    var p := Schedule(key, n - 1);
    assert Wrap(n - 1) == n - 1;
    var j := (p.0 + p.1[n - 1] + key[(n - 1) % |key|]) % 256;
    assert Schedule(key, n) == (j, p.1[n - 1 := p.1[j]][j := p.1[n - 1]]);
    hide Schedule;
  }

  /** The first key of a new generator is scheduled as in RC4; only the index j ends otherwise. */
  method FirstKey(key: seq<Byte>) returns (g: Generator)
    requires |key| > 0
    ensures fresh(g) && g.Valid() && g.s[..] == Schedule(key, 256).1 && g.i == g.j == 255
  {
    g := new Generator();
    assert g.s[..] == Schedule(key, 0).1;
    ScheduleIs(State(255, 0, g.s[..]), key, 256);
    hide Schedule;
    g.AddRandom(key);
  }

  lemma KeyedStart(st: State, dat: seq<Byte>)
    requires st.Ok() && |dat| > 0
    ensures Keyed(st, dat, 0) == st
  {
  }

  // ------------------------------------------------------------------------
  // Reduction to a range


  /** The draws that arc4random_uniform refuses are those below this, computed in 32 bits. */
  function Refused(bound: nat): (m: nat)
    requires 2 <= bound < WORD
  {
    if bound > 0x8000_0000 then (1 + (WORD - 1 - bound)) % WORD
    else ((0xffff_ffff - (bound * 2) % WORD) + 1) % WORD % bound
  }

  lemma {:induction false} MulGap(b: nat, q: nat, p: nat)
    requires q < p
    ensures b * q + b <= b * p
  {
    var d := p - q - 1;
    assert b * p == b * (q + 1 + d) == b * q + b + b * d;
    assert b * d >= 0;
  }

  lemma {:induction false} UniqueParts(b: nat, q: nat, r: nat, q': nat, r': nat)
    requires b * q + r == b * q' + r' && r < b && r' < b
    ensures q == q' && r == r'
  {
    if q < q' {
      MulGap(b, q, q');
    } else if q' < q {
      MulGap(b, q', q);
    }
  }

  lemma {:induction false} Parts(x: nat, b: nat)
    requires b > 0
    ensures x == b * (x / b) + x % b && 0 <= x % b < b && x / b >= 0
  {
  }

  lemma {:induction false} Unique(x: nat, b: nat, q: nat, r: nat)
    requires b > 0 && x == b * q + r && r < b
    ensures x / b == q && x % b == r
  {
    Parts(x, b);
    UniqueParts(b, q, r, x / b, x % b);
  }

  lemma {:induction false} AddMultiple(x: nat, b: nat)
    requires b > 0
    ensures (x + b) % b == x % b
  {
    Parts(x, b);
    var q, r := x / b, x % b;
    assert b * (q + 1) == b * q + b;
    Unique(x + b, b, q + 1, r);
  }

  lemma {:induction false} RefusedHigh(bound: nat)
    requires 0x8000_0000 < bound < WORD
    ensures Refused(bound) == WORD - bound == WORD % bound
  {
    Unique(WORD, bound, 1, WORD - bound);
  }

  lemma {:induction false} RefusedLow(bound: nat)
    requires 2 <= bound < 0x8000_0000
    ensures Refused(bound) == WORD % bound < bound
  {
    var x := WORD - 2 * bound;
    assert Refused(bound) == x % bound by {
      assert bound * 2 % WORD == bound * 2 && x % WORD == x;
    }
    hide Refused;
    AddMultiple(x, bound);
    AddMultiple(x + bound, bound);
    assert x + bound + bound == WORD;
    Parts(x, bound);
  }

  /** The 32-bit computation gives the remainder of 2 to the 32, for every bound. */
  lemma {:induction false} RefusedIs(bound: nat)
    requires 2 <= bound < WORD
    ensures Refused(bound) == WORD % bound
    ensures 2 * (WORD - Refused(bound)) > WORD
  {
    if bound > 0x8000_0000 {
      hide Refused;
      RefusedHigh(bound);
    } else if bound == 0x8000_0000 {
      assert Refused(bound) == 0;
    } else {
      hide Refused;
      RefusedLow(bound);
    }
  }

  // The draws from `low` on, q times bound of them, that reduce to v.
  ghost function Preimages(low: nat, bound: nat, q: nat, v: nat): (s: set<nat>)
    requires bound > 0
  {
    set r: nat | low <= r < low + q * bound && r % bound == v
  }

  // In a row of `bound` numbers one reduces to v.
  lemma {:induction false} OneInRow(a: nat, bound: nat, v: nat) returns (r: nat)
    requires v < bound
    ensures a <= r < a + bound && r % bound == v
    ensures forall x: nat | a <= x < a + bound && x % bound == v :: x == r
  {
    Parts(a, bound);
    var q, rem := a / bound, a % bound;
    if v >= rem {
      r := bound * q + v;
      Unique(r, bound, q, v);
    } else {
      r := bound * (q + 1) + v;
      assert bound * (q + 1) == bound * q + bound;
      Unique(r, bound, q + 1, v);
    }
    forall x: nat | a <= x < a + bound && x % bound == v ensures x == r {
      SameResidue(x, r, bound);
    }
  }

  lemma {:induction false} SameResidue(x: nat, y: nat, bound: nat)
    requires bound > 0 && x % bound == y % bound && x < y + bound && y < x + bound
    ensures x == y
  {
    Parts(x, bound);
    Parts(y, bound);
    NearParts(bound, x / bound, y / bound, x % bound);
  }

  lemma {:induction false} NearParts(b: nat, q: nat, p: nat, r: nat)
    requires b * q + r < b * p + r + b && b * p + r < b * q + r + b
    ensures q == p
  {
    if q < p {
      MulGap(b, q, p);
    } else if p < q {
      MulGap(b, p, q);
    }
  }

  lemma {:induction false} PreimageCount(low: nat, bound: nat, q: nat, v: nat)
    requires v < bound
    ensures |Preimages(low, bound, q, v)| == q
    decreases q
  {
    if q == 0 {
      assert Preimages(low, bound, q, v) == {};
    } else {
      PreimageCount(low, bound, q - 1, v);
      assert low + q * bound == low + (q - 1) * bound + bound;
      var r := OneInRow(low + (q - 1) * bound, bound, v);
      assert Preimages(low, bound, q, v) == Preimages(low, bound, q - 1, v) + {r};
    }
  }

  ghost function Accepted(bound: nat, v: nat): (s: set<nat>)
    requires 2 <= bound < WORD
  {
    set r: nat | Refused(bound) <= r < WORD && r % bound == v
  }

  /** Every result below the bound comes from the same number of draws. */
  lemma {:induction false} Unbiased(bound: nat, v: nat)
    requires 2 <= bound < WORD && v < bound
    ensures |Accepted(bound, v)| == WORD / bound
  {
    hide Refused; hide Preimages; hide Accepted;
    RefusedIs(bound);
    Parts(WORD, bound);
    UnbiasedBy(bound, v, Refused(bound), WORD / bound);
  }

  lemma UnbiasedBy(bound: nat, v: nat, low: nat, q: nat)
    requires 2 <= bound < WORD && v < bound && low == Refused(bound) && low + bound * q == WORD
    ensures |Accepted(bound, v)| == q
  {
    hide Refused; hide Preimages; hide Accepted;
    PreimageCount(low, bound, q, v);
    SameDraws(bound, v, low, q);
  }

  lemma SameDraws(bound: nat, v: nat, low: nat, q: nat)
    requires 2 <= bound < WORD && low == Refused(bound) && low + q * bound == WORD
    ensures Accepted(bound, v) == Preimages(low, bound, q, v)
  {
    hide Refused;
  }

  /** arc4random_uniform on the 32-bit draws the generator makes; none may do */
  method Uniform(bound: nat, draws: seq<nat>) returns (r: Option<nat>)
    requires bound < WORD && forall n | 0 <= n < |draws| :: draws[n] < WORD
    ensures bound < 2 ==> r == Some(0)
    ensures bound >= 2 && r.Some? ==> r.value < bound && exists n ::
              0 <= n < |draws| && draws[n] in Accepted(bound, r.value)
                  && (forall m | 0 <= m < n :: draws[m] < WORD % bound)
    ensures bound >= 2 && r.None? ==> forall n | 0 <= n < |draws| :: draws[n] < WORD % bound
  {
    if bound < 2 {
      return Some(0);
    }
    RefusedIs(bound);
    var low := Refused(bound);
    hide Refused;
    for n := 0 to |draws|
      invariant forall m | 0 <= m < n :: draws[m] < low
    {
      if draws[n] >= low {
        assert draws[n] in Accepted(bound, draws[n] % bound);
        return Some(draws[n] % bound);
      }
    }
    return None;
  }
}
