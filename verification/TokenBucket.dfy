/**
 The arithmetic of the token buckets: limits are signed 64-bit numbers, rates and maxima are
 unsigned ones, and ticks are counted modulo 2^32.
 */
module TokenBucket {
  import opened Wrappers

  const U64 := 0x1_0000_0000_0000_0000
  const I64 := 0x8000_0000_0000_0000
  const U32 := 0x1_0000_0000
  const INT_MAX := 0x7fff_ffff

  datatype Rate = Rate(rate: nat, maximum: nat)
  datatype Cfg = Cfg(read: Rate, write: Rate, msecPerTick: nat)
  datatype Bucket = Bucket(readLimit: int, writeLimit: int, lastUpdated: nat)

  // ev_token_bucket_cfg_new accepts these.
  predicate ValidRate(r: Rate) {
    1 <= r.rate <= r.maximum < I64
  }

  predicate ValidCfg(c: Cfg) {
    ValidRate(c.read) && ValidRate(c.write)
  }

  predicate IsLimit(x: int) {
    -I64 <= x < I64
  }

  // An unsigned sum read as a signed number
  function Signed(x: int): (r: int)
    ensures IsLimit(r) && (IsLimit(x) ==> r == x)
  {
    var u := x % U64;
    if u < I64 then u else u - U64
  }

  /** One limit in ev_token_bucket_update, for n ticks: the room left is computed, divided and
      compared as an unsigned number. */
  function Refill(limit: int, r: Rate, n: nat): int
    requires n > 0
  {
    if (r.maximum - limit) % U64 / n < r.rate then r.maximum else Signed(limit + n * r.rate)
  }

  lemma DivBelow(d: nat, n: nat, rate: nat)
    requires n > 0
    ensures d / n < rate <==> d < n * rate
  {
    var q := d / n;
    assert d == n * q + d % n;
    if q < rate {
      MulMono(n, q + 1, rate);
    } else {
      MulMono(n, rate, q);
    }
  }

  lemma MulMono(n: nat, a: nat, b: nat)
    requires a <= b
    ensures n * a <= n * b
  {
    var d := b - a;
    assert n * (a + d) == n * a + n * d && n * d >= 0;
  }

  /** The refill avoids overflow without changing the result, as long as the limit is not above
      the maximum. Above it the subtraction wraps around, and only a refill at least as large
      as what the wrapped room amounts to comes out right. */
  lemma RefillExact(limit: int, r: Rate, n: nat)
    requires ValidRate(r) && IsLimit(limit) && n > 0
    ensures Refill(limit, r, n) == Min(r.maximum, limit + n * r.rate) <==>
              limit <= r.maximum || n * r.rate >= U64 - (limit - r.maximum)
    ensures limit > r.maximum && limit + n * r.rate < I64 ==> Refill(limit, r, n) == limit + n * r.rate
  {
    DivBelow((r.maximum - limit) % U64, n, r.rate);
    assert n * r.rate > 0;
    RefillCases(limit, r.maximum, n * r.rate);
  }

  lemma RefillCases(limit: int, maximum: nat, grant: nat)
    requires 0 < maximum < I64 && IsLimit(limit) && grant > 0
    ensures (if (maximum - limit) % U64 < grant then maximum else Signed(limit + grant)) == Min(maximum, limit + grant)
            <==> limit <= maximum || grant >= U64 - (limit - maximum)
    ensures limit > maximum && limit + grant < I64 ==> (maximum - limit) % U64 >= grant
  {
    if limit <= maximum {
      assert (maximum - limit) % U64 == maximum - limit;
    } else {
      WrapOnce(maximum - limit);
      assert (maximum - limit) % U64 == U64 + maximum - limit;
      if grant <= U64 + maximum - limit {
        WrappedRefill(limit, maximum, grant);
      }
    }
  }

  lemma WrapOnce(x: int)
    requires -U64 <= x < 0
    ensures x % U64 == x + U64 || x == -U64
  {
  }

  lemma WrappedRefill(limit: int, maximum: nat, grant: nat)
    requires 0 < maximum < limit < I64 && 0 < grant <= U64 + maximum - limit
    ensures Signed(limit + grant) == maximum <==> grant == U64 + maximum - limit
  {
    var x := limit + grant;
    if x < U64 {
      assert x % U64 == x;
    } else {
      assert x % U64 == x - U64;
    }
  }

  lemma RefillBounds(limit: int, r: Rate, n: nat)
    requires ValidRate(r) && IsLimit(limit) && limit <= r.maximum && n > 0
    ensures limit < Refill(limit, r, n) <= r.maximum || limit == r.maximum == Refill(limit, r, n)
    ensures Refill(limit, r, n) <= limit + n * r.rate
  {
    RefillExact(limit, r, n);
    assert n * r.rate > 0;
  }

  // ---- Updates at ticks ----

  // The ticks an update takes into account: none if time has rolled back
  function Elapsed(last: nat, tick: nat): (n: nat)
    ensures n <= INT_MAX
  {
    var n := (tick - last) % U32;
    if n > INT_MAX then 0 else n
  }

  // ev_token_bucket_update
  function Update(b: Bucket, c: Cfg, tick: nat): Bucket
    requires ValidCfg(c)
  {
    var n := Elapsed(b.lastUpdated, tick);
    if n == 0 then b
    else Bucket(Refill(b.readLimit, c.read, n), Refill(b.writeLimit, c.write, n), tick)
  }

  predicate ValidBucket(b: Bucket, c: Cfg) {
    IsLimit(b.readLimit) && IsLimit(b.writeLimit) && b.readLimit <= c.read.maximum && b.writeLimit <= c.write.maximum
  }

  // One limit after a number of ticks: what they bring is added, up to the maximum.
  function After(limit: int, r: Rate, ticks: nat): int {
    Min(r.maximum, limit + ticks * r.rate)
  }

  lemma AfterTwice(limit: int, r: Rate, m: nat, n: nat)
    requires limit <= r.maximum
    ensures After(After(limit, r, m), r, n) == After(limit, r, m + n)
  {
    assert (m + n) * r.rate == m * r.rate + n * r.rate;
    assert n * r.rate >= 0;
  }

  lemma UpdateIs(b: Bucket, c: Cfg, tick: nat)
    requires ValidCfg(c) && ValidBucket(b, c)
    ensures var n, b' := Elapsed(b.lastUpdated, tick), Update(b, c, tick);
      && b'.readLimit == After(b.readLimit, c.read, n) && b'.writeLimit == After(b.writeLimit, c.write, n)
      && ValidBucket(b', c) && b'.lastUpdated == if n == 0 then b.lastUpdated else tick
  {
    var n := Elapsed(b.lastUpdated, tick);
    if n > 0 {
      RefillExact(b.readLimit, c.read, n);
      RefillExact(b.writeLimit, c.write, n);
      RefillBounds(b.readLimit, c.read, n);
      RefillBounds(b.writeLimit, c.write, n);
    }
  }

  function UpdateAll(b: Bucket, c: Cfg, ticks: seq<nat>): Bucket
    requires ValidCfg(c)
    decreases |ticks|
  {
    if ticks == [] then b else UpdateAll(Update(b, c, ticks[0]), c, ticks[1..])
  }

  // All the ticks taken into account
  function TotalElapsed(last: nat, ticks: seq<nat>): nat
    decreases |ticks|
  {
    if ticks == [] then 0
    else
      var n := Elapsed(last, ticks[0]);
      n + TotalElapsed(if n == 0 then last else ticks[0], ticks[1..])
  }

  /** Any series of updates, with the clock going forward or back, amounts to one refill for the
      ticks taken into account. */
  lemma {:induction false} UpdatesAddUp(b: Bucket, c: Cfg, ticks: seq<nat>)
    requires ValidCfg(c) && ValidBucket(b, c)
    ensures var b', n := UpdateAll(b, c, ticks), TotalElapsed(b.lastUpdated, ticks);
      b'.readLimit == After(b.readLimit, c.read, n) && b'.writeLimit == After(b.writeLimit, c.write, n)
        && ValidBucket(b', c)
    decreases |ticks|
  {
    if ticks != [] {
      var n, b1 := Elapsed(b.lastUpdated, ticks[0]), Update(b, c, ticks[0]);
      UpdateIs(b, c, ticks[0]);
      hide Update, Elapsed, After;
      UpdatesAddUp(b1, c, ticks[1..]);
      var m := TotalElapsed(b1.lastUpdated, ticks[1..]);
      AfterTwice(b.readLimit, c.read, n, m);
      AfterTwice(b.writeLimit, c.write, n, m);
    } else {
      assert 0 * c.read.rate == 0 && 0 * c.write.rate == 0;
    }
  }

  // ---- Ticks of a clock ----

  // The whole ticks on the clock
  function Whole(msec: nat, msecPerTick: nat): (n: nat)
    requires msecPerTick > 0
    ensures n * msecPerTick <= msec < (n + 1) * msecPerTick
  {
    var n := msec / msecPerTick;
    assert msec == msecPerTick * n + msec % msecPerTick;
    assert (n + 1) * msecPerTick == n * msecPerTick + msecPerTick;
    n
  }

  // ev_token_bucket_get_tick
  function Tick(msec: nat, msecPerTick: nat): (r: nat)
    requires msecPerTick > 0
    ensures r < U32
  {
    Whole(msec, msecPerTick) % U32
  }

  lemma TickGap(m: nat, m': nat)
    requires m <= m'
    ensures Elapsed(m % U32, m' % U32) == if (m' - m) % U32 > INT_MAX then 0 else (m' - m) % U32
  {
    assert (m' % U32 - m % U32) % U32 == (m' - m) % U32 by {
      var q, q' := m / U32, m' / U32;
      assert m == U32 * q + m % U32 && m' == U32 * q' + m' % U32;
      assert m' % U32 - m % U32 == (m' - m) + U32 * (q - q');
      AddMultiple(m' - m, q - q');
    }
  }

  lemma {:induction false} AddMultiple(x: int, k: int)
    ensures (x + U32 * k) % U32 == x % U32
    decreases if k < 0 then -k else k
  {
    if k > 0 {
      AddMultiple(x, k - 1);
      assert (x + U32 * k) == (x + U32 * (k - 1)) + U32;
    } else if k < 0 {
      AddMultiple(x, k + 1);
      assert (x + U32 * k) == (x + U32 * (k + 1)) - U32;
    }
  }

  // The clock, in whole ticks not reduced modulo 2^32, goes forward by less than 2^31 at a time.
  predicate Steady(last: nat, times: seq<nat>)
    decreases |times|
  {
    times == [] || (0 <= times[0] - last <= INT_MAX && Steady(times[0], times[1..]))
  }

  function Wrapped(times: seq<nat>): (r: seq<nat>)
    ensures |r| == |times| && forall i :: 0 <= i < |r| ==> r[i] == times[i] % U32
  {
    seq(|times|, i requires 0 <= i < |times| => times[i] % U32)
  }

  lemma {:induction false} SteadyElapsed(last: nat, times: seq<nat>)
    requires Steady(last, times)
    ensures times != [] ==> times[|times| - 1] >= last
    ensures TotalElapsed(last % U32, Wrapped(times)) == if times == [] then 0 else times[|times| - 1] - last
    decreases |times|
  {
    if times != [] {
      var t, rest := times[0], times[1..];
      TickGap(last, t);
      assert Wrapped(times)[1..] == Wrapped(rest);
      SteadyElapsed(t, rest);
    }
  }

  /** Splitting an interval into several updates changes nothing: the limits depend on the first
      and the last tick alone. */
  lemma SplitUpdates(b: Bucket, c: Cfg, last: nat, times: seq<nat>)
    requires ValidCfg(c) && ValidBucket(b, c) && b.lastUpdated == last % U32 && times != [] && Steady(last, times)
    ensures var b', n := UpdateAll(b, c, Wrapped(times)), times[|times| - 1] - last;
      n >= 0 && b'.readLimit == After(b.readLimit, c.read, n) && b'.writeLimit == After(b.writeLimit, c.write, n)
  {
    hide UpdateAll, TotalElapsed, Steady, Wrapped, After;
    SteadyElapsed(last, times);
    UpdatesAddUp(b, c, Wrapped(times));
  }

  // ---- The same from readings of a clock ----

  // Readings in milliseconds that do not go back, nor forward by more than 2^31 - 1 ticks at once
  predicate Forward(start: nat, msecs: seq<nat>, msecPerTick: nat)
    decreases |msecs|
  {
    msecs == [] || (0 <= msecs[0] - start <= INT_MAX * msecPerTick && Forward(msecs[0], msecs[1..], msecPerTick))
  }

  function WholeTicks(msecs: seq<nat>, msecPerTick: nat): (r: seq<nat>)
    requires msecPerTick > 0
    ensures |r| == |msecs| && forall i :: 0 <= i < |r| ==> r[i] == Whole(msecs[i], msecPerTick)
  {
    seq(|msecs|, i requires 0 <= i < |msecs| => Whole(msecs[i], msecPerTick))
  }

  function ClockTicks(msecs: seq<nat>, msecPerTick: nat): (r: seq<nat>)
    requires msecPerTick > 0
    ensures |r| == |msecs| && forall i :: 0 <= i < |r| ==> r[i] == Tick(msecs[i], msecPerTick)
  {
    seq(|msecs|, i requires 0 <= i < |msecs| => Tick(msecs[i], msecPerTick))
  }

  lemma ClockWraps(msecs: seq<nat>, msecPerTick: nat)
    requires msecPerTick > 0
    ensures ClockTicks(msecs, msecPerTick) == Wrapped(WholeTicks(msecs, msecPerTick))
  {
  }

  lemma QuotientGap(a: nat, b: nat, p: nat, k: nat)
    requires p > 0 && a <= b <= a + k * p
    ensures 0 <= b / p - a / p <= k
  {
    var qa, qb := a / p, b / p;
    assert a == p * qa + a % p && b == p * qb + b % p;
    assert p * (qa + k + 1) == p * qa + k * p + p;
    if qb < qa {
      MulMono(p, qb + 1, qa);
    } else if qb > qa + k {
      MulMono(p, qa + k + 1, qb);
    }
  }

  lemma {:induction false} ForwardSteady(start: nat, msecs: seq<nat>, msecPerTick: nat)
    requires msecPerTick > 0 && Forward(start, msecs, msecPerTick)
    ensures Steady(Whole(start, msecPerTick), WholeTicks(msecs, msecPerTick))
    decreases |msecs|
  {
    if msecs != [] {
      QuotientGap(start, msecs[0], msecPerTick, INT_MAX);
      ForwardSteady(msecs[0], msecs[1..], msecPerTick);
      assert WholeTicks(msecs, msecPerTick)[1..] == WholeTicks(msecs[1..], msecPerTick);
    }
  }

  /** Updates at any readings of a clock that goes forward amount to one refill for the whole ticks
      between the first reading and the last. */
  lemma SplitClock(b: Bucket, c: Cfg, start: nat, msecs: seq<nat>)
    requires ValidCfg(c) && ValidBucket(b, c) && c.msecPerTick > 0 && b.lastUpdated == Tick(start, c.msecPerTick)
    requires msecs != [] && Forward(start, msecs, c.msecPerTick)
    ensures var b' := UpdateAll(b, c, ClockTicks(msecs, c.msecPerTick));
      var n := Whole(msecs[|msecs| - 1], c.msecPerTick) - Whole(start, c.msecPerTick);
      n >= 0 && b'.readLimit == After(b.readLimit, c.read, n) && b'.writeLimit == After(b.writeLimit, c.write, n)
  {
    hide UpdateAll, Steady, Forward, Wrapped, WholeTicks, ClockTicks, ValidCfg, ValidBucket, After, Whole;
    var times := WholeTicks(msecs, c.msecPerTick);
    ForwardSteady(start, msecs, c.msecPerTick);
    ClockWraps(msecs, c.msecPerTick);
    SplitUpdates(b, c, Whole(start, c.msecPerTick), times);
  }
}
