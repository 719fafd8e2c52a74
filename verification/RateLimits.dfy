/**
  Token buckets (bufferevent_ratelim.c, ratelim-internal.h) on the 32-bit configuration:
  size_t, ssize_t and tick counters are 32 bits wide, and unsigned arithmetic wraps.
*/
module RateLimits {
  import opened Basics

  const INT_MAX: nat := 0x7fff_ffff

  /** One direction of struct ev_token_bucket_cfg, as ev_token_bucket_cfg_new accepts it. */
  datatype Rate = Rate(rate: nat, maximum: nat) {
    ghost predicate Ok() {
      1 <= rate <= maximum <= INT_MAX
    }
  }

  // A value of type ssize_t.
  ghost predicate Signed(x: int) {
    -0x8000_0000 <= x <= 0x7fff_ffff
  }

  function Unsigned(x: int): (r: nat) {
    x % WORD
  }

  function ToSigned(x: nat): (r: int) {
    if x > INT_MAX then x - WORD else x
  }

  /** The refill of ev_token_bucket_update_, which divides instead of multiplying. */
  function Refill(limit: int, c: Rate, nTicks: nat): (r: int)
    requires nTicks > 0
  {
    if Unsigned(c.maximum - limit) / nTicks < c.rate then c.maximum
    else ToSigned(Unsigned(limit + Unsigned(nTicks * c.rate)))
  }

  function Min(a: int, b: int): (r: int)
    ensures r <= a && r <= b && (r == a || r == b)
  {
    if a <= b then a else b
  }

  lemma {:induction false} DivLess(d: nat, n: nat, r: nat)
    requires n > 0
    ensures d / n < r <==> d < n * r
  {
    var q := d / n;
    assert d == q * n + d % n;
    if q < r {
      assert (q + 1) * n <= r * n;
    } else {
      assert r * n <= q * n;
    }
  }

  /** Nothing overflows on the way: the refill is the plain one, cut off at the maximum. */
  lemma {:induction false} RefillIsMin(limit: int, c: Rate, nTicks: nat)
    requires c.Ok() && Signed(limit) && limit <= c.maximum && 0 < nTicks
    ensures Refill(limit, c, nTicks) == Min(c.maximum, limit + nTicks * c.rate)
    ensures Signed(Refill(limit, c, nTicks)) && limit <= Refill(limit, c, nTicks) <= c.maximum
  {
    NoWrap(limit, c.maximum, nTicks * c.rate);
    hide Unsigned; hide ToSigned;
    DivLess(c.maximum - limit, nTicks, c.rate);
  }

  lemma {:induction false} NoWrap(limit: int, maximum: nat, p: int)
    requires Signed(limit) && limit <= maximum <= INT_MAX
    ensures Unsigned(maximum - limit) == maximum - limit
    ensures 0 <= p <= maximum - limit ==> ToSigned(Unsigned(limit + Unsigned(p))) == limit + p
  {
  }

  /**
    A refund can lift a bucket over its maximum. Then the unsigned difference wraps, and
    the refill is the plain one exactly if so many ticks come in that they wrap it back.
  */
  lemma {:induction false} RefillIsMinIff(limit: int, c: Rate, nTicks: nat)
    requires c.Ok() && Signed(limit) && 0 < nTicks
    ensures Refill(limit, c, nTicks) == Min(c.maximum, limit + nTicks * c.rate)
       <==> limit <= c.maximum || nTicks * c.rate >= WORD - (limit - c.maximum)
  {
    if limit <= c.maximum {
      RefillIsMin(limit, c, nTicks);
    } else {
      Overfull(limit, c.maximum, nTicks * c.rate);
      hide Unsigned; hide ToSigned;
      assert nTicks * c.rate >= 0;
      DivLess(WORD - (limit - c.maximum), nTicks, c.rate);
    }
  }

  lemma {:induction false} Overfull(limit: int, maximum: nat, p: int)
    requires Signed(limit) && maximum < limit && p >= 0
    ensures Unsigned(maximum - limit) == WORD - (limit - maximum)
    ensures p <= WORD - (limit - maximum) ==>
              (ToSigned(Unsigned(limit + Unsigned(p))) == maximum <==> p == WORD - (limit - maximum))
  {
    if p <= WORD - (limit - maximum) {
      assert Unsigned(p) == p;
      if p < WORD - (limit - maximum) && limit + p >= WORD {
        assert Unsigned(limit + p) == limit + p - WORD;
      }
    }
  }

  // One byte over a maximum of 1000, and the next tick adds another 100.
  lemma OverfullGrows()
    ensures Refill(1001, Rate(100, 1000), 1) == 1101
  {
  }

  // The number of ticks that ev_token_bucket_update_ sees.
  function Elapsed(tick: nat, last: nat): (n: nat) {
    Unsigned(tick - last)
  }

  /** Wrapping counters still tell gaps of up to INT_MAX ticks. */
  lemma {:induction false} ElapsedIsGap(now: nat, before: nat)
    requires before <= now <= before + INT_MAX
    ensures Elapsed(Unsigned(now), Unsigned(before)) == now - before
  {
    var a, b := now % WORD, before % WORD;
    var qa, qb := now / WORD, before / WORD;
    assert now == qa * WORD + a && before == qb * WORD + b;
    var gap := now - before;
    assert a - b == gap + (qb - qa) * WORD;
    assert qa == qb || qa == qb + 1;
  }

  /** ev_token_bucket_update_ in one direction, with the two tick counters. */
  function Updated(limit: int, c: Rate, last: nat, tick: nat): (r: int) {
    var n := Elapsed(tick, last);
    if n == 0 || n > INT_MAX then limit else Refill(limit, c, n)
  }

  lemma {:induction false} UpdatedIs(limit: int, c: Rate, last: nat, tick: nat)
    requires c.Ok() && Signed(limit) && limit <= c.maximum && last <= tick <= last + INT_MAX
    ensures Updated(limit, c, Unsigned(last), Unsigned(tick)) == Min(c.maximum, limit + (tick - last) * c.rate)
    ensures Signed(Updated(limit, c, Unsigned(last), Unsigned(tick)))
    ensures limit <= Updated(limit, c, Unsigned(last), Unsigned(tick)) <= c.maximum
  {
    ElapsedIsGap(tick, last);
    if tick > last {
      RefillIsMin(limit, c, tick - last);
    }
    assert tick == last ==> (tick - last) * c.rate == 0;
  }

  // ------------------------------------------------------------------------
  // How much may pass

  /** In some tick, bytes moved under bufferevent_get_rlim_max_ and bytes charged besides. */
  datatype Step = Step(tick: nat, bytes: nat, charge: nat)

  // bufferevent_get_rlim_max_ for a bucket without a group
  function Allowed(limit: int): (n: nat) {
    if limit < 0 then 0 else limit
  }

  function LimitAfter(limit: int, c: Rate, last: nat, s: Step): (r: int) {
    Updated(limit, c, Unsigned(last), Unsigned(s.tick)) - s.bytes - s.charge
  }

  // Time does not run back or jump, transfers keep to what is allowed, the limit is in range.
  ghost predicate Respects(limit: int, c: Rate, last: nat, steps: seq<Step>)
    decreases |steps|
  {
    |steps| == 0 ||
    (var s := steps[0];
     && last <= s.tick <= last + INT_MAX
     && s.bytes <= Allowed(Updated(limit, c, Unsigned(last), Unsigned(s.tick)))
     && Signed(LimitAfter(limit, c, last, s))
     && Respects(LimitAfter(limit, c, last, s), c, s.tick, steps[1..]))
  }

  ghost function Total(steps: seq<Step>): (n: nat) {
    if |steps| == 0 then 0 else steps[0].bytes + Total(steps[1..])
  }

  // The bytes moved in ticks a to b.
  ghost function Moved(steps: seq<Step>, a: nat, b: nat): (n: nat) {
    if |steps| == 0 then 0
    else (if a <= steps[0].tick <= b then steps[0].bytes else 0) + Moved(steps[1..], a, b)
  }

  // What n ticks bring in.
  ghost function Refills(c: Rate, n: nat): (r: nat) {
    n * c.rate
  }

  lemma Spread(c: Rate, m: nat, n: nat)
    ensures Refills(c, m + n) == Refills(c, m) + Refills(c, n)
  {
  }

  // One step: what moves was in the bucket or came in since, and no bucket is overfull.
  lemma {:induction false} StepPays(limit: int, c: Rate, last: nat, s: Step)
    requires c.Ok() && Signed(limit) && limit <= c.maximum && last <= s.tick <= last + INT_MAX
    requires s.bytes <= Allowed(Updated(limit, c, Unsigned(last), Unsigned(s.tick)))
    ensures LimitAfter(limit, c, last, s) <= c.maximum
    ensures s.bytes + Allowed(LimitAfter(limit, c, last, s)) <= c.maximum
    ensures s.bytes + Allowed(LimitAfter(limit, c, last, s)) <= Allowed(limit) + Refills(c, s.tick - last)
  {
    UpdatedIs(limit, c, last, s.tick);
    hide Updated;
  }

  // What has passed up to tick b is paid for by what was in the bucket and what was refilled.
  lemma {:induction false} PaidFor(limit: int, c: Rate, last: nat, steps: seq<Step>, b: nat)
    requires c.Ok() && Signed(limit) && limit <= c.maximum && Respects(limit, c, last, steps) && last <= b
    ensures Moved(steps, last, b) <= Allowed(limit) + Refills(c, b - last)
    decreases |steps|
  {
    hide Refills;
    if |steps| > 0 {
      var s := steps[0];
      if s.tick > b {
        TicksGrow(limit, c, last, steps);
        NoneMoved(steps, last, b);
      } else {
        StepPays(limit, c, last, s);
        hide Updated; hide LimitAfter; hide Allowed; hide Unsigned; hide Signed;
        var after := LimitAfter(limit, c, last, s);
        TicksGrow(after, c, s.tick, steps[1..]);
        MovedFrom(steps[1..], last, s.tick, b);
        PaidFor(after, c, s.tick, steps[1..], b);
        Spread(c, s.tick - last, b - s.tick);
      }
    }
  }

  // Time goes on.
  lemma {:induction false} TicksGrow(limit: int, c: Rate, last: nat, steps: seq<Step>)
    requires Respects(limit, c, last, steps)
    ensures forall k | 0 <= k < |steps| :: last <= steps[k].tick && (k > 0 ==> steps[0].tick <= steps[k].tick)
    decreases |steps|
  {
    if |steps| > 0 {
      hide Updated;
      TicksGrow(LimitAfter(limit, c, last, steps[0]), c, steps[0].tick, steps[1..]);
      assert forall k | 0 < k < |steps| :: steps[k] == steps[1..][k - 1];
    }
  }

  lemma {:induction false} NoneMoved(steps: seq<Step>, a: nat, b: nat)
    requires forall k | 0 <= k < |steps| :: b < steps[k].tick
    ensures Moved(steps, a, b) == 0
    decreases |steps|
  {
    if |steps| > 0 {
      assert forall k | 0 <= k < |steps[1..]| :: steps[1..][k] == steps[k + 1];
      NoneMoved(steps[1..], a, b);
    }
  }

  lemma {:induction false} MovedFrom(steps: seq<Step>, a: nat, a': nat, b: nat)
    requires a <= a' && forall k | 0 <= k < |steps| :: a' <= steps[k].tick
    ensures Moved(steps, a, b) == Moved(steps, a', b)
    decreases |steps|
  {
    if |steps| > 0 {
      assert forall k | 0 <= k < |steps[1..]| :: steps[1..][k] == steps[k + 1];
      MovedFrom(steps[1..], a, a', b);
    }
  }

  // The first step in the stretch finds at most a full bucket.
  lemma {:induction false} MovedBetween(limit: int, c: Rate, last: nat, steps: seq<Step>, a: nat, b: nat)
    requires c.Ok() && Signed(limit) && limit <= c.maximum && Respects(limit, c, last, steps) && a <= b
    ensures Moved(steps, a, b) <= c.maximum + Refills(c, b - a)
    decreases |steps|
  {
    hide Refills;
    if |steps| > 0 {
      var s := steps[0];
      StepPays(limit, c, last, s);
      hide Updated; hide LimitAfter; hide Allowed;
      var after := LimitAfter(limit, c, last, s);
      if s.tick < a {
        MovedBetween(after, c, s.tick, steps[1..], a, b);
      } else if s.tick > b {
        TicksGrow(limit, c, last, steps);
        NoneMoved(steps, a, b);
      } else {
        TicksGrow(after, c, s.tick, steps[1..]);
        MovedFrom(steps[1..], a, s.tick, b);
        PaidFor(after, c, s.tick, steps[1..], b);
        Spread(c, s.tick - a, b - s.tick);
      }
    }
  }

  /**
    In every run, between any two ticks no more passes than a full bucket and the
    refills between them: after any time of idling a burst is at most the maximum.
  */
  lemma {:induction false} Throughput(limit: int, c: Rate, last: nat, steps: seq<Step>, a: nat, b: nat)
    requires c.Ok() && Signed(limit) && limit <= c.maximum && Respects(limit, c, last, steps) && a <= b
    ensures Moved(steps, a, b) <= c.maximum + (b - a) * c.rate
  {
    MovedBetween(limit, c, last, steps, a, b);
  }

  lemma {:induction false} TicksSorted(limit: int, c: Rate, last: nat, steps: seq<Step>, i: nat, j: nat)
    requires Respects(limit, c, last, steps) && i <= j < |steps|
    ensures steps[i].tick <= steps[j].tick
    decreases |steps|
  {
    hide Updated;
    if i == 0 {
      TicksGrow(limit, c, last, steps);
    } else {
      TicksSorted(LimitAfter(limit, c, last, steps[0]), c, steps[0].tick, steps[1..], i - 1, j - 1);
    }
  }

  // A stretch of steps whose ticks all lie between a and b is part of what moves then.
  lemma {:induction false} StretchMoved(steps: seq<Step>, i: nat, j: nat, a: nat, b: nat)
    requires i <= j <= |steps| && forall k | i <= k < j :: a <= steps[k].tick <= b
    ensures Total(steps[i..j]) <= Moved(steps, a, b)
    decreases |steps|
  {
    if i < j {
      var tail := steps[1..];
      assert forall k | 0 <= k < |tail| :: tail[k] == steps[k + 1];
      if i > 0 {
        assert steps[i..j] == tail[i - 1..j - 1] by { hide Total; hide Moved; }
        StretchMoved(tail, i - 1, j - 1, a, b);
      } else {
        assert steps[i..j][1..] == tail[..j - 1] == tail[0..j - 1] by { hide Total; hide Moved; }
        StretchMoved(tail, 0, j - 1, a, b);
      }
    }
  }

  /** The same for every stretch of a run: steps i to j - 1, the first taken at tick a or later, the last by tick b. */
  lemma {:induction false} ThroughputWithin(
    limit: int, c: Rate, last: nat, steps: seq<Step>, i: nat, j: nat, a: nat, b: nat)
    requires c.Ok() && Signed(limit) && limit <= c.maximum && Respects(limit, c, last, steps)
    requires i < j <= |steps| && a <= steps[i].tick && steps[j - 1].tick <= b
    ensures Total(steps[i..j]) <= c.maximum + (b - a) * c.rate
  {
    forall k | i <= k < j ensures a <= steps[k].tick <= b {
      TicksSorted(limit, c, last, steps, i, k);
      TicksSorted(limit, c, last, steps, k, j - 1);
    }
    hide Respects; hide Total; hide Moved;
    StretchMoved(steps, i, j, a, b);
    assert a <= steps[i].tick <= b;
    Throughput(limit, c, last, steps, a, b);
  }

  // ------------------------------------------------------------------------
  // A rate-limited bufferevent

  /** struct ev_token_bucket_cfg; `id` stands for its address */
  datatype Config = Config(id: nat, read: Rate, write: Rate)

  /**
    The rate-limiting part of a bufferevent without a group: its bucket, whether bandwidth
    has suspended each direction (BEV_SUSPEND_BW), and whether the refill timer is pending.
    Adding the timer succeeds.
  */
  class Limited {
    var cfg: Option<Config>
    var readLimit: int
    var writeLimit: int
    var last: nat
    var readSuspended: bool
    var writeSuspended: bool
    var timer: bool

    // The fields are within their types, and the timer is pending exactly while a direction is suspended.
    ghost predicate Typed()
      reads this
    {
      match cfg
      case None => !readSuspended && !writeSuspended && !timer
      case Some(c) =>
        && c.read.Ok() && c.write.Ok() && Signed(readLimit) && Signed(writeLimit)
        && (timer <==> readSuspended || writeSuspended)
    }

    /** No refill is lost: an exhausted bucket is suspended until a pending timer. */
    ghost predicate Sound()
      reads this
    {
      && Typed()
      && (cfg.Some? ==> (readLimit <= 0 ==> readSuspended) && (writeLimit <= 0 ==> writeSuspended))
    }

    // Neither bucket is over its maximum.
    ghost predicate Bounded()
      reads this
    {
      cfg.Some? ==> readLimit <= cfg.value.read.maximum && writeLimit <= cfg.value.write.maximum
    }

    ghost predicate Valid()
      reads this
    {
      Sound() && Bounded()
    }

    /** A refill leaves no direction exhausted that is not suspended. */
    ghost predicate Refillable(tick: nat)
      reads this
    {
      cfg.Some? ==>
        && (readSuspended || Updated(readLimit, cfg.value.read, last, tick) > 0)
        && (writeSuspended || Updated(writeLimit, cfg.value.write, last, tick) > 0)
    }

    /** Buckets that are not over their maximum can always be refilled. */
    lemma BoundedRefillable(tick: nat)
      requires Valid() && tick < WORD
      ensures Refillable(tick)
    {
      if cfg.Some? {
        UpdatedGrows(readLimit, cfg.value.read, last, tick);
        UpdatedGrows(writeLimit, cfg.value.write, last, tick);
      }
    }

    constructor ()
      ensures Valid() && cfg.None?
    {
      cfg, readLimit, writeLimit, last := None, 0, 0, 0;
      readSuspended, writeSuspended, timer := false, false, false;
    }

    // ev_token_bucket_update_ on the bucket as it is
    method UpdateBucket(tick: nat)
      requires cfg.Some? && cfg.value.read.Ok() && cfg.value.write.Ok() && tick < WORD
      requires Signed(readLimit) && Signed(writeLimit)
      modifies this`readLimit, this`writeLimit, this`last
      ensures readLimit == Updated(old(readLimit), cfg.value.read, old(last), tick)
      ensures writeLimit == Updated(old(writeLimit), cfg.value.write, old(last), tick)
      ensures last == if 0 < (tick - old(last)) % WORD <= INT_MAX then tick else old(last)
      ensures Signed(readLimit) && Signed(writeLimit)
      ensures old(readLimit) <= cfg.value.read.maximum ==> old(readLimit) <= readLimit <= cfg.value.read.maximum
      ensures old(writeLimit) <= cfg.value.write.maximum ==> old(writeLimit) <= writeLimit <= cfg.value.write.maximum
    {
      var n := Elapsed(tick, last);
      if n == 0 || n > INT_MAX {
        return;
      }
      RefillSigned(readLimit, cfg.value.read, n);
      RefillSigned(writeLimit, cfg.value.write, n);
      hide Refill;
      readLimit := Refill(readLimit, cfg.value.read, n);
      writeLimit := Refill(writeLimit, cfg.value.write, n);
      last := tick;
    }

    /** bufferevent_get_rlim_max_ with its update; `single` is max_single_read or max_single_write */
    method RlimMax(tick: nat, write: bool, single: nat) returns (most: nat)
      requires Sound() && tick < WORD
      modifies this`readLimit, this`writeLimit, this`last
      ensures Typed() && (Sound() <==> old(Refillable(tick))) && (old(Bounded()) ==> Bounded())
      ensures cfg.None? ==> most == single
      ensures cfg.Some? ==>
                var limit := if write then writeLimit else readLimit;
                most == if limit < 0 then 0 else limit
      ensures cfg.Some? ==> readLimit == Updated(old(readLimit), cfg.value.read, old(last), tick)
      ensures cfg.Some? ==> writeLimit == Updated(old(writeLimit), cfg.value.write, old(last), tick)
      ensures last == if cfg.Some? && 0 < (tick - old(last)) % WORD <= INT_MAX then tick else old(last)
    {
      hide Updated;
      if cfg.None? {
        return single;
      }
      if tick != last {
        UpdateBucket(tick);
      } else {
        assert (tick - last) % WORD == 0;
        NothingElapsed(readLimit, cfg.value.read, last);
        NothingElapsed(writeLimit, cfg.value.write, last);
      }
      var limit := if write then writeLimit else readLimit;
      return if limit < 0 then 0 else limit;
    }

    /** bufferevent_decrement_read_buckets_ */
    method DecrementRead(bytes: int)
      requires Sound() && (cfg.Some? ==> Signed(readLimit - bytes))
      modifies this`readLimit, this`readSuspended, this`timer
      ensures Sound() && (cfg.Some? ==> readLimit == old(readLimit) - bytes && (readSuspended <==> readLimit <= 0))
    {
      if cfg.Some? {
        readLimit := readLimit - bytes;
        if readLimit <= 0 {
          readSuspended := true;
          timer := true;
        } else if readSuspended {
          if !writeSuspended {
            timer := false;
          }
          readSuspended := false;
        }
      }
    }

    /** bufferevent_decrement_write_buckets_ */
    method DecrementWrite(bytes: int)
      requires Sound() && (cfg.Some? ==> Signed(writeLimit - bytes))
      modifies this`writeLimit, this`writeSuspended, this`timer
      ensures Sound() && (cfg.Some? ==> writeLimit == old(writeLimit) - bytes && (writeSuspended <==> writeLimit <= 0))
    {
      if cfg.Some? {
        writeLimit := writeLimit - bytes;
        if writeLimit <= 0 {
          writeSuspended := true;
          timer := true;
        } else if writeSuspended {
          if !readSuspended {
            timer := false;
          }
          writeSuspended := false;
        }
      }
    }

    /** bufferevent_decrement_read_limit, of a bufferevent that has a limit */
    method DecrementReadLimit(decr: int)
      requires Sound() && cfg.Some? && Signed(readLimit - decr)
      modifies this`readLimit, this`readSuspended, this`timer
      ensures Sound() && readLimit == old(readLimit) - decr
      ensures readSuspended <==> readLimit <= 0 || (old(readLimit) > 0 && old(readSuspended))
    {
      var was := readLimit;
      readLimit := readLimit - decr;
      if was > 0 && readLimit <= 0 {
        readSuspended := true;
        timer := true;
      } else if was <= 0 && readLimit > 0 {
        if !writeSuspended {
          timer := false;
        }
        readSuspended := false;
      }
    }

    /** bufferevent_decrement_write_limit */
    method DecrementWriteLimit(decr: int)
      requires Sound() && cfg.Some? && Signed(writeLimit - decr)
      modifies this`writeLimit, this`writeSuspended, this`timer
      ensures Sound() && writeLimit == old(writeLimit) - decr
      ensures writeSuspended <==> writeLimit <= 0 || (old(writeLimit) > 0 && old(writeSuspended))
    {
      var was := writeLimit;
      writeLimit := writeLimit - decr;
      if was > 0 && writeLimit <= 0 {
        writeSuspended := true;
        timer := true;
      } else if was <= 0 && writeLimit > 0 {
        if !readSuspended {
          timer := false;
        }
        writeSuspended := false;
      }
    }

    /** The timer fires: bev_refill_callback_ */
    method RefillCallback(tick: nat)
      requires Sound() && timer && tick < WORD
      modifies this
      ensures Typed() && cfg == old(cfg)
      ensures (Sound() <==> old(Refillable(tick))) && (old(Bounded()) ==> Bounded())
      ensures cfg.Some? ==> readLimit == Updated(old(readLimit), cfg.value.read, old(last), tick)
      ensures cfg.Some? ==> writeLimit == Updated(old(writeLimit), cfg.value.write, old(last), tick)
      ensures last == if cfg.Some? && 0 < (tick - old(last)) % WORD <= INT_MAX then tick else old(last)
      ensures readSuspended <==> old(readSuspended) && readLimit <= 0
      ensures writeSuspended <==> old(writeSuspended) && writeLimit <= 0
      ensures timer <==> readSuspended || writeSuspended
    {
      hide Updated;
      timer := false;
      if cfg.None? {
        return;
      }
      UpdateBucket(tick);
      var again := false;
      if readSuspended {
        if readLimit > 0 {
          readSuspended := false;
        } else {
          again := true;
        }
      }
      if writeSuspended {
        if writeLimit > 0 {
          writeSuspended := false;
        } else {
          again := true;
        }
      }
      if again {
        timer := true;
      }
    }

    /** bufferevent_set_rate_limit */
    method SetRateLimit(c: Option<Config>, tick: nat)
      requires Sound() && tick < WORD && (c.Some? ==> c.value.read.Ok() && c.value.write.Ok())
      requires c.Some? && cfg.Some? && c.value.id == cfg.value.id ==> c == cfg
      modifies this
      ensures Sound() && cfg == c && (old(Bounded()) || c != old(cfg) ==> Bounded())
      ensures c.Some? && c == old(cfg) ==>
                readLimit == old(readLimit) && writeLimit == old(writeLimit) && last == old(last)
      ensures c.Some? && c != old(cfg) ==> (readSuspended <==> readLimit <= 0) && (writeSuspended <==> writeLimit <= 0)
      ensures c.Some? && old(cfg).None? ==>
                readLimit == c.value.read.rate && writeLimit == c.value.write.rate && last == tick && !timer
      ensures c.Some? && c != old(cfg) && old(cfg).Some? ==>
                last == old(last) && readLimit == Min(old(readLimit), c.value.read.maximum)
      ensures c.Some? && c != old(cfg) && old(cfg).Some? ==> writeLimit == Min(old(writeLimit), c.value.write.maximum)
    {
      if c.None? {
        cfg, readSuspended, writeSuspended, timer := None, false, false, false;
        return;
      }
      if cfg.Some? && cfg.value.id == c.value.id {
        return;
      }
      var reinit := cfg.Some?;
      cfg := c;
      InitBucket(tick, reinit);
      timer := false;
      readSuspended := readLimit <= 0;
      writeSuspended := writeLimit <= 0;
      if readSuspended || writeSuspended {
        timer := true;
      }
    }

    // ev_token_bucket_init_: a new configuration only clips downwards
    method InitBucket(tick: nat, reinitialize: bool)
      requires cfg.Some?
      modifies this`readLimit, this`writeLimit, this`last
      ensures reinitialize ==>
                last == old(last) && readLimit == Min(old(readLimit), cfg.value.read.maximum)
                    && writeLimit == Min(old(writeLimit), cfg.value.write.maximum)
      ensures !reinitialize ==> last == tick && readLimit == cfg.value.read.rate && writeLimit == cfg.value.write.rate
    {
      if reinitialize {
        if readLimit > cfg.value.read.maximum {
          readLimit := cfg.value.read.maximum;
        }
        if writeLimit > cfg.value.write.maximum {
          writeLimit := cfg.value.write.maximum;
        }
      } else {
        readLimit, writeLimit, last := cfg.value.read.rate, cfg.value.write.rate, tick;
      }
    }
  }

  lemma {:induction false} RefillSigned(limit: int, c: Rate, nTicks: nat)
    requires c.Ok() && Signed(limit) && 0 < nTicks
    ensures Signed(Refill(limit, c, nTicks))
    ensures limit <= c.maximum ==> limit <= Refill(limit, c, nTicks) <= c.maximum
  {
    if limit <= c.maximum {
      RefillIsMin(limit, c, nTicks);
    }
  }

  lemma {:induction false} UpdatedGrows(limit: int, c: Rate, last: nat, tick: nat)
    requires c.Ok() && Signed(limit) && limit <= c.maximum
    ensures limit <= Updated(limit, c, last, tick) <= c.maximum
  {
    var n := Elapsed(tick, last);
    if 0 < n <= INT_MAX {
      RefillIsMin(limit, c, n);
    }
  }

  /** A bucket refunded to the brim of its type turns negative at the next tick, and nobody suspends it. */
  lemma OverfullSinks()
    ensures Refill(0x7fff_ffff, Rate(100, 1000), 1) == -0x8000_0000 + 99
  {
  }

  lemma NothingElapsed(limit: int, c: Rate, tick: nat)
    ensures Updated(limit, c, tick, tick) == limit
  {
  }

  // ev_token_bucket_get_tick_ at some millisecond
  function TickOf(msec: nat, msecPerTick: nat): (t: nat)
    requires msecPerTick > 0
  {
    Unsigned(msec / msecPerTick)
  }

  /**
    A new configuration keeps last_updated in the old ticks. With longer ticks the count
    of the new ones is behind it, and an empty bucket gets nothing: here a day passes.
  */
  lemma LongerTicksStall()
    ensures var msec, day := 1_000_000_000, 86_400_000;
            var last := TickOf(msec, 1);
            var c := Rate(100, 1000);
            Updated(0, c, last, TickOf(msec + day, 1000))
                == 0 < Updated(0, c, TickOf(msec, 1000), TickOf(msec + day, 1000))
  {
    assert TickOf(1_000_000_000, 1) == 1_000_000_000;
    assert 1_086_400_000 / 1000 == 1_086_400;
    assert TickOf(1_086_400_000, 1000) == 1_086_400;
    assert TickOf(1_000_000_000, 1000) == 1_000_000;
    assert Elapsed(1_086_400, 1_000_000) == 86_400;
    assert Elapsed(1_086_400, 1_000_000_000) == WORD - 998_913_600;
    RefillIsMin(0, Rate(100, 1000), 86_400);
  }

  /** An empty bucket is refilled exactly when its two tick counts are a small gap apart. */
  lemma {:induction false} RefilledIff(limit: int, c: Rate, last: nat, tick: nat)
    requires c.Ok() && Signed(limit) && limit < c.maximum && last < WORD && tick < WORD
    ensures Updated(limit, c, last, tick) > limit <==> 0 < Unsigned(tick - last) <= INT_MAX
  {
    var n := Elapsed(tick, last);
    if 0 < n <= INT_MAX {
      RefillIsMin(limit, c, n);
      assert n * c.rate > 0;
    }
  }

  // ------------------------------------------------------------------------
  // Runs

  datatype Call =
    | CallMax(write: bool)
    | CallRead(bytes: int)
    | CallWrite(bytes: int)
    | CallReadLimit(decr: int)
    | CallWriteLimit(decr: int)
    | CallTimer
    | CallConfigure(c: Option<Config>)

  ghost predicate Sensible(l: Limited, call: Call)
    reads l
  {
    match call
    case CallMax(_) => true
    case CallRead(n) => l.cfg.Some? ==> Signed(l.readLimit - n)
    case CallWrite(n) => l.cfg.Some? ==> Signed(l.writeLimit - n)
    case CallReadLimit(n) => l.cfg.Some? && Signed(l.readLimit - n)
    case CallWriteLimit(n) => l.cfg.Some? && Signed(l.writeLimit - n)
    case CallTimer => l.timer
    case CallConfigure(c) =>
      && (c.Some? ==> c.value.read.Ok() && c.value.write.Ok())
      && (c.Some? && l.cfg.Some? && c.value.id == l.cfg.value.id ==> c == l.cfg)
  }

  // The call gives nothing back beyond what the buckets hold.
  ghost predicate Modest(l: Limited, call: Call)
    reads l
  {
    match call
    case CallRead(n) => l.cfg.Some? ==> l.readLimit - n <= l.cfg.value.read.maximum
    case CallWrite(n) => l.cfg.Some? ==> l.writeLimit - n <= l.cfg.value.write.maximum
    case CallReadLimit(n) => l.cfg.Some? ==> l.readLimit - n <= l.cfg.value.read.maximum
    case CallWriteLimit(n) => l.cfg.Some? ==> l.writeLimit - n <= l.cfg.value.write.maximum
    case _ => true
  }

  // One limit after a call: refilled by a look or the timer, less by a charge to its own direction.
  ghost function AfterCall(call: Call, write: bool, limit: int, c: Rate, last: nat, tick: nat): int {
    match call
    case CallMax(_) => Updated(limit, c, last, tick)
    case CallTimer => Updated(limit, c, last, tick)
    case CallRead(n) => if write then limit else limit - n
    case CallReadLimit(n) => if write then limit else limit - n
    case CallWrite(n) => if write then limit - n else limit
    case CallWriteLimit(n) => if write then limit - n else limit
    case CallConfigure(_) => limit
  }

  /**
    Whatever is called, in whatever tick, an exhausted bucket waits for a pending timer,
    except exactly when a refill exhausts a bucket that was not suspended. As long as no
    refund lifts a bucket over its maximum, that does not happen.
  */
  method Perform(l: Limited, call: Call, tick: nat)
    requires l.Sound() && Sensible(l, call) && tick < WORD
    modifies l
    ensures l.Typed()
    ensures l.Sound() <==> ((call.CallMax? || call.CallTimer?) ==> old(l.Refillable(tick)))
    ensures l.cfg == if call.CallConfigure? then call.c else old(l.cfg)
    ensures l.cfg.Some? && !call.CallConfigure? ==>
              && l.readLimit == AfterCall(call, false, old(l.readLimit), l.cfg.value.read, old(l.last), tick)
              && l.writeLimit == AfterCall(call, true, old(l.writeLimit), l.cfg.value.write, old(l.last), tick)
    ensures old(l.Valid() && Modest(l, call)) ==> l.Valid()
  {
    if l.Bounded() {
      l.BoundedRefillable(tick);
    }
    hide Updated;
    match call
    case CallMax(write) => var most := l.RlimMax(tick, write, 16384);
    case CallRead(n) => l.DecrementRead(n);
    case CallWrite(n) => l.DecrementWrite(n);
    case CallReadLimit(n) => l.DecrementReadLimit(n);
    case CallWriteLimit(n) => l.DecrementWriteLimit(n);
    case CallTimer => l.RefillCallback(tick);
    case CallConfigure(c) => l.SetRateLimit(c, tick);
  }

  /** Ticks are credited once: a second look in the same tick finds both limits as they are. */
  method LookTwice(l: Limited, tick: nat, write: bool, single: nat) returns (first: nat, second: nat)
    requires l.Valid() && tick < WORD
    modifies l
    ensures l.Valid() && first == second
    ensures l.cfg.Some? ==> l.readLimit == Updated(old(l.readLimit), l.cfg.value.read, old(l.last), tick)
    ensures l.cfg.Some? ==> l.writeLimit == Updated(old(l.writeLimit), l.cfg.value.write, old(l.last), tick)
  {
    l.BoundedRefillable(tick);
    hide Updated;
    first := l.RlimMax(tick, write, single);
    l.BoundedRefillable(tick);
    if l.cfg.Some? {
      Credited(l.readLimit, l.cfg.value.read, old(l.last), l.last, tick);
      Credited(l.writeLimit, l.cfg.value.write, old(l.last), l.last, tick);
    }
    second := l.RlimMax(tick, write, single);
  }

  lemma Credited(limit: int, c: Rate, before: nat, last: nat, tick: nat)
    requires last == if 0 < (tick - before) % WORD <= INT_MAX then tick else before
    ensures Updated(limit, c, last, tick) == limit
  {
  }

  // ------------------------------------------------------------------------
  // What passes through a bucket

  /** What may happen in some tick: a transfer, with a charge besides, or a look at the bucket. */
  datatype Use =
    | Transfer(tick: nat, want: nat, charge: nat)
    | Look(tick: nat)

  // The uses come in the order of time, without a gap that the counters could not tell.
  ghost predicate InTime(last: nat, uses: seq<Use>)
    decreases |uses|
  {
    |uses| == 0 || (last <= uses[0].tick <= last + INT_MAX && InTime(uses[0].tick, uses[1..]))
  }

  // The bytes that the uses in ticks a to b have moved.
  ghost function Passed(uses: seq<Use>, moved: seq<nat>, a: nat, b: nat): (n: nat)
    requires |moved| == |uses|
  {
    if |uses| == 0 then 0
    else (if a <= uses[0].tick <= b then moved[0] else 0) + Passed(uses[1..], moved[1..], a, b)
  }

  // One direction of a bucket.
  function LimitOf(l: Limited, write: bool): int
    reads l
  {
    if write then l.writeLimit else l.readLimit
  }

  function RateOf(c: Config, write: bool): Rate {
    if write then c.write else c.read
  }

  // The base is limited and its bucket is as of tick `last`.
  ghost predicate UpTo(l: Limited, last: nat)
    reads l
  {
    l.Valid() && l.cfg.Some? && l.last == last % WORD
  }

  // Bytes are taken off one direction.
  method Charge(l: Limited, write: bool, n: nat)
    requires l.Valid() && l.cfg.Some? && Signed(LimitOf(l, write) - n)
    modifies l
    ensures l.Valid() && l.cfg == old(l.cfg) && l.last == old(l.last) && LimitOf(l, write) == old(LimitOf(l, write)) - n
  {
    if write {
      l.DecrementWrite(n);
    } else {
      l.DecrementRead(n);
    }
  }

  // So are bytes that moved by other ways, as long as the limit can tell.
  method ChargeBesides(l: Limited, write: bool, n: nat) returns (charged: nat)
    requires l.Valid() && l.cfg.Some?
    modifies l
    ensures l.Valid() && l.cfg == old(l.cfg) && l.last == old(l.last)
    ensures LimitOf(l, write) == old(LimitOf(l, write)) - charged
              && charged == if Signed(old(LimitOf(l, write)) - n) then n else 0
  {
    if LimitOf(l, write) - n < -0x8000_0000 {
      return 0;
    }
    if write {
      l.DecrementWriteLimit(n);
    } else {
      l.DecrementReadLimit(n);
    }
    return n;
  }

  // The timer, if it is pending, or a look for the next transfer.
  method LookNow(l: Limited, write: bool, tick: nat)
    requires l.Valid() && l.cfg.Some? && tick < WORD
    modifies l
    ensures l.Valid() && l.cfg == old(l.cfg)
    ensures LimitOf(l, write) == Updated(old(LimitOf(l, write)), RateOf(l.cfg.value, write), old(l.last), tick)
    ensures l.last == if 0 < (tick - old(l.last)) % WORD <= INT_MAX then tick else old(l.last)
  {
    l.BoundedRefillable(tick);
    hide Updated;
    if l.timer {
      l.RefillCallback(tick);
    } else {
      var ignored := l.RlimMax(tick, write, 0);
    }
  }

  // As much passes as is wanted and allowed.
  method TransferNow(l: Limited, write: bool, tick: nat, want: nat, charge: nat) returns (moved: nat, charged: nat)
    requires l.Valid() && l.cfg.Some? && tick < WORD
    modifies l
    ensures l.Valid() && l.cfg == old(l.cfg)
    ensures var most := Updated(old(LimitOf(l, write)), RateOf(l.cfg.value, write), old(l.last), tick);
            && moved == (if most < 0 then 0 else if want <= most then want else most)
            && LimitOf(l, write) == most - moved - charged
    ensures Signed(LimitOf(l, write))
    ensures l.last == if 0 < (tick - old(l.last)) % WORD <= INT_MAX then tick else old(l.last)
  {
    l.BoundedRefillable(tick);
    hide Updated;
    var most := l.RlimMax(tick, write, 0);
    moved := if want <= most then want else most;
    Charge(l, write, moved);
    charged := ChargeBesides(l, write, charge);
  }

  // The counter tells where the bucket stands.
  lemma {:induction false} TickTold(last: nat, tick: nat)
    requires last <= tick <= last + INT_MAX
    ensures var l, t := last % WORD, tick % WORD;
            (if 0 < (t - l) % WORD <= INT_MAX then t else l) == t
  {
    ElapsedIsGap(tick, last);
  }

  /** One use of the bucket is one step of the run that Throughput is about. */
  method UseOnce(l: Limited, write: bool, use: Use, ghost last: nat) returns (moved: nat, ghost s: Step)
    requires UpTo(l, last) && last <= use.tick <= last + INT_MAX
    modifies l
    ensures UpTo(l, use.tick) && l.cfg == old(l.cfg)
    ensures s.tick == use.tick && s.bytes == moved && (use.Look? ==> moved == 0)
    ensures LimitOf(l, write) == LimitAfter(old(LimitOf(l, write)), RateOf(l.cfg.value, write), last, s)
    ensures moved <= Allowed(Updated(old(LimitOf(l, write)), RateOf(l.cfg.value, write), Unsigned(last),
              Unsigned(use.tick)))
  {
    var tick := use.tick % WORD;
    TickTold(last, use.tick);
    hide Updated;
    ghost var charge := 0;
    moved := 0;
    match use {
      case Look(_) => LookNow(l, write, tick);
      case Transfer(_, want, c) =>
        var m, n := TransferNow(l, write, tick, want, c);
        moved, charge := m, n;
    }
    s := Step(use.tick, moved, charge);
  }

  // All of them.
  method UseAll(
    l: Limited, write: bool, uses: seq<Use>, ghost last: nat)
    returns (moved: seq<nat>, ghost steps: seq<Step>)
    requires UpTo(l, last) && InTime(last, uses)
    modifies l
    ensures l.Valid() && l.cfg == old(l.cfg) && |moved| == |uses| == |steps|
    ensures Respects(old(LimitOf(l, write)), RateOf(l.cfg.value, write), last, steps)
    ensures forall i | 0 <= i < |uses| :: steps[i].tick == uses[i].tick && steps[i].bytes == moved[i]
    decreases |uses|
  {
    hide Updated; hide LimitAfter; hide Allowed; hide Unsigned;
    if |uses| == 0 {
      return [], [];
    }
    ghost var limit0 := LimitOf(l, write);
    ghost var s: Step;
    var first: nat;
    first, s := UseOnce(l, write, uses[0], last);
    var rest, more := UseAll(l, write, uses[1..], uses[0].tick);
    moved, steps := [first] + rest, [s] + more;
    assert steps[1..] == more;
  }

  lemma {:induction false} PassedIs(uses: seq<Use>, moved: seq<nat>, steps: seq<Step>, a: nat, b: nat)
    requires |moved| == |uses| == |steps|
    requires forall i | 0 <= i < |uses| :: steps[i].tick == uses[i].tick && steps[i].bytes == moved[i]
    ensures Passed(uses, moved, a, b) == Moved(steps, a, b)
    decreases |uses|
  {
    if |uses| > 0 {
      PassedIs(uses[1..], moved[1..], steps[1..], a, b);
    }
  }

  /**
    Throughput of the bucket itself: whatever is wanted of it, and whatever is charged
    besides, the bytes that pass in ticks a to b are at most a full bucket and the refills
    of these ticks.
  */
  method Metered(l: Limited, write: bool, uses: seq<Use>, ghost last: nat, ghost a: nat, ghost b: nat)
    returns (moved: seq<nat>)
    requires UpTo(l, last) && InTime(last, uses) && a <= b
    modifies l
    ensures l.Valid() && l.cfg == old(l.cfg) && |moved| == |uses|
    ensures Passed(uses, moved, a, b) <= RateOf(l.cfg.value, write).maximum + (b - a) * RateOf(l.cfg.value, write).rate
  {
    ghost var limit0, c := LimitOf(l, write), RateOf(l.cfg.value, write);
    hide Respects;
    ghost var steps;
    moved, steps := UseAll(l, write, uses, last);
    PassedIs(uses, moved, steps, a, b);
    Throughput(limit0, c, last, steps, a, b);
  }
}
