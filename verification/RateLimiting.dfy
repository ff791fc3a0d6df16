/**
 A bufferevent with a rate limit: suspend flags, buckets and the refill timer. A direction whose
 bucket is empty is suspended, and while one is suspended the timer is on its way.
 */
module RateLimiting {
  import opened TokenBucket
  import opened Wrappers

  const MAX_EVER := 16384

  // The reasons to suspend a direction
  datatype Flag = Watermark | Bandwidth | BandwidthGroup | Lookup

  // The refill timer: not scheduled, scheduled, or due with its callback still to run
  datatype Timer = Idle | Pending | Active

  // One direction: why it is suspended, whether the user enabled it, and whether the backend
  // is reading or writing
  datatype Lane = Lane(suspended: set<Flag>, enabled: bool, running: bool)

  predicate LaneOk(l: Lane) {
    l.running <==> l.enabled && l.suspended == {}
  }

  // bufferevent_suspend_read and _write
  function Suspend(l: Lane, f: Flag): (r: Lane)
    ensures LaneOk(l) ==> LaneOk(r)
  {
    Lane(l.suspended + {f}, l.enabled, l.running && l.suspended != {})
  }

  // bufferevent_unsuspend_read and _write
  function Unsuspend(l: Lane, f: Flag): (r: Lane)
    ensures LaneOk(l) ==> LaneOk(r)
  {
    var s := l.suspended - {f};
    Lane(s, l.enabled, l.running || (s == {} && l.enabled))
  }

  // What the group shows of itself under its lock
  datatype Group = Group(suspended: bool, limit: int, members: nat, minShare: int)

  // Division toward zero
  function Quotient(n: int, m: nat): (q: int)
    requires m > 0
    ensures n >= 0 ==> q * m <= n < (q + 1) * m
    ensures n < 0 ==> (q - 1) * m < n <= q * m
  {
    if n >= 0 then
      assert n == m * (n / m) + n % m && (n / m + 1) * m == n / m * m + m;
      n / m
    else
      var p := -n / m;
      assert -n == m * p + -n % m && -p * m == -(m * p) && (-p - 1) * m == -p * m - m;
      -p
  }

  function Share(g: Group): int
    requires g.members > 0
  {
    var q := Quotient(g.limit, g.members);
    if q < g.minShare then g.minShare else q
  }

  datatype Op =
    | Transfer(isWrite: bool, want: nat, tick: nat, group: Option<Group>)
    | TimerDue
    | RunTimer(tick: nat)
    | Choke(isWrite: bool, flag: Flag)
    | Release(isWrite: bool, flag: Flag)
    | Enable(isWrite: bool)
    | Disable(isWrite: bool)

  predicate Fits(op: Op) {
    match op
    case Transfer(_, _, _, group) => group.Some? ==> group.value.members > 0
    case Choke(_, flag) => flag != Bandwidth
    case Release(_, flag) => flag != Bandwidth
    case _ => true
  }

  // ---- What the operations do to the state ----

  datatype State = State(bucket: Bucket, read: Lane, write: Lane, timer: Timer)

  function LimitIn(b: Bucket, isWrite: bool): int {
    if isWrite then b.writeLimit else b.readLimit
  }

  function Charged(b: Bucket, isWrite: bool, bytes: int): Bucket {
    if isWrite then b.(writeLimit := b.writeLimit - bytes) else b.(readLimit := b.readLimit - bytes)
  }

  function RateOf(c: Cfg, isWrite: bool): Rate {
    if isWrite then c.write else c.read
  }

  function LaneIn(s: State, isWrite: bool): Lane {
    if isWrite then s.write else s.read
  }

  function WithLane(s: State, isWrite: bool, l: Lane): State {
    if isWrite then s.(write := l) else s.(read := l)
  }

  function Started(l: Lane): Lane {
    Lane(l.suspended, true, l.running || l.suspended == {})
  }

  function Stopped(l: Lane): Lane {
    Lane(l.suspended, false, false)
  }

  // How much may go through at once, with this much in the bucket
  function Allowance(limit: int, group: Option<Group>): nat
    requires group.Some? ==> group.value.members > 0
  {
    Max(0, if group.None? then limit else Min(limit, if group.value.suspended then 0 else Share(group.value)))
  }

  // Looking for the allowance refills the bucket, and suspends a member of a suspended group.
  function Looked(s: State, c: Cfg, isWrite: bool, tick: nat, group: Option<Group>): State
    requires ValidCfg(c)
  {
    var s1 := s.(bucket := Update(s.bucket, c, tick));
    if group.Some? && group.value.suspended then WithLane(s1, isWrite, Suspend(LaneIn(s1, isWrite), BandwidthGroup))
    else s1
  }

  function Decremented(s: State, isWrite: bool, bytes: int): State {
    var s1 := s.(bucket := Charged(s.bucket, isWrite, bytes));
    var l := LaneIn(s, isWrite);
    if LimitIn(s1.bucket, isWrite) <= 0 then WithLane(s1, isWrite, Suspend(l, Bandwidth)).(timer := Pending)
    else if Bandwidth in l.suspended then
      var s2 := WithLane(s1, isWrite, Unsuspend(l, Bandwidth));
      if Bandwidth in LaneIn(s, !isWrite).suspended then s2 else s2.(timer := Idle)
    else s1
  }

  // The refill timer after a charge: set if the bucket is empty, and called off if this direction
  // alone was waiting for it
  function TimerAfter(timer: Timer, was: Lane, other: Lane, limit: int): (r: Timer)
    ensures limit <= 0 ==> r == Pending
    ensures limit > 0 ==> r == Idle || r == timer
    ensures limit > 0 && Bandwidth in was.suspended && Bandwidth !in other.suspended ==> r == Idle
    ensures limit > 0 && (Bandwidth !in was.suspended || Bandwidth in other.suspended) ==> r == timer
  {
    if limit <= 0 then Pending
    else if Bandwidth in was.suspended && Bandwidth !in other.suspended then Idle
    else timer
  }

  function Rechecked(l: Lane, limit: int): Lane {
    if Bandwidth in l.suspended && limit > 0 then Unsuspend(l, Bandwidth) else l
  }

  function Refilled(s: State, c: Cfg, tick: nat): State
    requires ValidCfg(c)
  {
    var b := Update(s.bucket, c, tick);
    var r, w := Rechecked(s.read, b.readLimit), Rechecked(s.write, b.writeLimit);
    State(b, r, w, if Bandwidth in r.suspended || Bandwidth in w.suspended then Pending else Idle)
  }

  // The bytes an operation moves
  function Moves(s: State, c: Cfg, op: Op): nat
    requires ValidCfg(c) && Fits(op)
  {
    match op
    case Transfer(isWrite, want, tick, group) =>
      Min(want, Allowance(LimitIn(Update(s.bucket, c, tick), isWrite), group))
    case _ => 0
  }

  function Step(s: State, c: Cfg, op: Op): State
    requires ValidCfg(c) && Fits(op)
  {
    match op
    case Transfer(isWrite, _, tick, group) => Decremented(Looked(s, c, isWrite, tick, group), isWrite, Moves(s, c, op))
    case TimerDue => if s.timer == Pending then s.(timer := Active) else s
    case RunTimer(tick) => if s.timer == Active then Refilled(s, c, tick) else s
    case Choke(isWrite, flag) => WithLane(s, isWrite, Suspend(LaneIn(s, isWrite), flag))
    case Release(isWrite, flag) => WithLane(s, isWrite, Unsuspend(LaneIn(s, isWrite), flag))
    case Enable(isWrite) => WithLane(s, isWrite, Started(LaneIn(s, isWrite)))
    case Disable(isWrite) => WithLane(s, isWrite, Stopped(LaneIn(s, isWrite)))
  }

  // The tick at which an operation looks at the clock, if it does
  function TickOf(s: State, op: Op): seq<nat> {
    if op.Transfer? then [op.tick] else if op.RunTimer? && s.timer == Active then [op.tick] else []
  }

  predicate AllFit(ops: seq<Op>) {
    forall i :: 0 <= i < |ops| ==> Fits(ops[i])
  }

  function Replay(s: State, c: Cfg, ops: seq<Op>): State
    requires ValidCfg(c) && AllFit(ops)
    decreases |ops|
  {
    if ops == [] then s else Replay(Step(s, c, ops[0]), c, ops[1..])
  }

  // The bytes each operation moves
  function AllMoves(s: State, c: Cfg, ops: seq<Op>): (r: seq<nat>)
    requires ValidCfg(c) && AllFit(ops)
    ensures |r| == |ops|
    decreases |ops|
  {
    if ops == [] then [] else [Moves(s, c, ops[0])] + AllMoves(Step(s, c, ops[0]), c, ops[1..])
  }

  // The ticks at which the buckets are refilled
  function TicksTaken(s: State, c: Cfg, ops: seq<Op>): seq<nat>
    requires ValidCfg(c) && AllFit(ops)
    decreases |ops|
  {
    if ops == [] then [] else TickOf(s, ops[0]) + TicksTaken(Step(s, c, ops[0]), c, ops[1..])
  }

  // What went in one direction
  function Total(moved: seq<nat>, ops: seq<Op>, isWrite: bool): nat
    requires |moved| == |ops|
  {
    if ops == [] then 0
    else (if ops[0].Transfer? && ops[0].isWrite == isWrite then moved[0] else 0) + Total(moved[1..], ops[1..], isWrite)
  }

  // No more than what was in the bucket and what the ticks brought
  ghost predicate Within(moved: seq<nat>, ops: seq<Op>, isWrite: bool, limit: int, ticks: nat, rate: nat) {
    |moved| == |ops| && Total(moved, ops, isWrite) <= Max(0, limit + ticks * rate)
  }

  // ---- What that comes to ----

  // The bytes moved and what is left in the bucket come from what was there and what the ticks
  // brought; a transfer does not overdraw the bucket.
  ghost predicate Account(b: Bucket, b': Bucket, n: nat, e: nat, r: Rate, isWrite: bool) {
    && n + LimitIn(b', isWrite) <= LimitIn(b, isWrite) + e * r.rate
    && (n > 0 ==> LimitIn(b', isWrite) >= 0)
  }

  lemma UpdateAccount(b: Bucket, c: Cfg, tick: nat, isWrite: bool)
    requires ValidCfg(c) && ValidBucket(b, c)
    ensures var b', e := Update(b, c, tick), Elapsed(b.lastUpdated, tick);
      && ValidBucket(b', c) && Account(b, b', 0, e, RateOf(c, isWrite), isWrite)
      && b'.lastUpdated == if e == 0 then b.lastUpdated else tick
  {
    UpdateIs(b, c, tick);
    hide Refill;
  }

  lemma ChargeAccount(b: Bucket, b1: Bucket, c: Cfg, w: bool, n: nat, group: Option<Group>, want: nat, e: nat,
                      isWrite: bool)
    requires ValidCfg(c) && ValidBucket(b1, c) && Account(b, b1, 0, e, RateOf(c, isWrite), isWrite)
    requires (group.Some? ==> group.value.members > 0) && n == Min(want, Allowance(LimitIn(b1, w), group))
    ensures var b' := Charged(b1, w, n);
      ValidBucket(b', c) && Account(b, b', if w == isWrite then n else 0, e, RateOf(c, isWrite), isWrite)
  {
    hide Share;
  }

  lemma StepAccount(s: State, c: Cfg, op: Op, isWrite: bool)
    requires ValidCfg(c) && ValidBucket(s.bucket, c) && Fits(op)
    ensures ValidBucket(Step(s, c, op).bucket, c)
    ensures var s', n := Step(s, c, op), if op.Transfer? && op.isWrite == isWrite then Moves(s, c, op) else 0;
      var e := TotalElapsed(s.bucket.lastUpdated, TickOf(s, op));
      && Account(s.bucket, s'.bucket, n, e, RateOf(c, isWrite), isWrite)
      && s'.bucket.lastUpdated == if e == 0 then s.bucket.lastUpdated else op.tick
  {
    if op.Transfer? || (op.RunTimer? && s.timer == Active) {
      ElapsedOnce(s.bucket.lastUpdated, op.tick);
      UpdateAccount(s.bucket, c, op.tick, isWrite);
      hide TotalElapsed, Elapsed, Update, Account, ValidBucket, Allowance, Suspend, Unsuspend;
      if op.Transfer? {
        ChargeAccount(s.bucket, Update(s.bucket, c, op.tick), c, op.isWrite, Moves(s, c, op), op.group, op.want,
                      Elapsed(s.bucket.lastUpdated, op.tick), isWrite);
      }
    } else {
      assert TickOf(s, op) == [];
    }
  }

  lemma ElapsedOnce(last: nat, tick: nat)
    ensures TotalElapsed(last, [tick]) == Elapsed(last, tick)
  {
    assert [tick][1..] == [] && forall x :: TotalElapsed(x, []) == 0;
  }

  lemma TotalElapsedFirst(last: nat, tick: seq<nat>, more: seq<nat>)
    requires |tick| <= 1
    ensures var e := TotalElapsed(last, tick);
      TotalElapsed(last, tick + more) == e + TotalElapsed(if e == 0 then last else tick[0], more)
  {
    if tick == [] {
      assert tick + more == more;
    } else {
      assert (tick + more)[1..] == more && tick[1..] == [];
    }
  }

  /** Over every run, in each direction, the bytes moved are at most what was in the bucket and what
      the ticks brought. */
  lemma {:induction false} RunBound(s: State, c: Cfg, ops: seq<Op>, isWrite: bool)
    requires ValidCfg(c) && ValidBucket(s.bucket, c) && AllFit(ops)
    ensures var e := TotalElapsed(s.bucket.lastUpdated, TicksTaken(s, c, ops));
      Within(AllMoves(s, c, ops), ops, isWrite, LimitIn(s.bucket, isWrite), e, RateOf(c, isWrite).rate)
    decreases |ops|
  {
    if ops != [] {
      var op, rest := ops[0], ops[1..];
      var s', moved: seq<nat> := Step(s, c, op), AllMoves(s, c, ops);
      assert moved[1..] == AllMoves(s', c, rest) && moved[0] == Moves(s, c, op);
      assert TicksTaken(s, c, ops) == TickOf(s, op) + TicksTaken(s', c, rest) && |TickOf(s, op)| <= 1;
      StepAccount(s, c, op, isWrite);
      hide Step, Moves, TotalElapsed, AllMoves, TicksTaken, TickOf, ValidBucket;
      RunBound(s', c, rest, isWrite);
      TotalElapsedFirst(s.bucket.lastUpdated, TickOf(s, op), TicksTaken(s', c, rest));
      Bounds(if op.Transfer? && op.isWrite == isWrite then moved[0] else 0, Total(moved[1..], rest, isWrite),
             LimitIn(s.bucket, isWrite), LimitIn(s'.bucket, isWrite), RateOf(c, isWrite).rate,
             TotalElapsed(s.bucket.lastUpdated, TickOf(s, op)),
               TotalElapsed(s'.bucket.lastUpdated, TicksTaken(s', c, rest)));
    }
  }

  lemma Bounds(n: nat, more: nat, limit: int, limit': int, rate: nat, e: nat, m: nat)
    requires n + limit' <= limit + e * rate && (n > 0 ==> limit' >= 0) && more <= Max(0, limit' + m * rate)
    ensures n + more <= Max(0, limit + (e + m) * rate)
  {
    assert (e + m) * rate == e * rate + m * rate && m * rate >= 0;
  }

  /** With a steady clock these are the ticks from the last refill before the run to the last one
      in it, whatever lies between. */
  lemma RunBoundSteady(s: State, c: Cfg, ops: seq<Op>, isWrite: bool, last: nat, times: seq<nat>)
    requires ValidCfg(c) && ValidBucket(s.bucket, c) && AllFit(ops)
    requires s.bucket.lastUpdated == last % U32 && times != [] && Steady(last, times)
    requires TicksTaken(s, c, ops) == Wrapped(times)
    ensures times[|times| - 1] >= last
    ensures Within(AllMoves(s, c, ops), ops, isWrite, LimitIn(s.bucket, isWrite), times[|times| - 1] - last,
                   RateOf(c, isWrite).rate)
  {
    hide *;
    RunBound(s, c, ops, isWrite);
    SteadyElapsed(last, times);
  }

  // ---- Steps and runs, one at a time ----

  /** What each operation does to a lane, the bucket and the timer; a transfer is what TransferSome says. */
  lemma StepDoes(s: State, c: Cfg, op: Op, w: bool)
    requires ValidCfg(c) && Fits(op) && LaneOk(LaneIn(s, w))
    ensures var s', l, l' := Step(s, c, op), LaneIn(s, w), LaneIn(Step(s, c, op), w);
      && (!op.Transfer? ==> Moves(s, c, op) == 0)
      && (!op.Transfer? && !op.RunTimer? ==> s'.bucket == s.bucket)
      && (op.TimerDue? ==> s' == s.(timer := if s.timer == Pending then Active else s.timer))
      && (op.RunTimer? && s.timer != Active ==> s' == s)
      && (op.Choke? || op.Release? || op.Enable? || op.Disable? ==>
            && s'.timer == s.timer
            && (op.isWrite != w ==> l' == l)
            && (op.isWrite == w ==> (l'.running <==> l'.enabled && l'.suspended == {})))
      && (op.Choke? && op.isWrite == w ==> l'.enabled == l.enabled && l'.suspended == l.suspended + {op.flag})
      && (op.Release? && op.isWrite == w ==> l'.enabled == l.enabled && l'.suspended == l.suspended - {op.flag})
      && ((op.Enable? || op.Disable?) && op.isWrite == w ==>
            l'.enabled == op.Enable? && l'.suspended == l.suspended)
  {
    hide Update;
  }

  lemma {:induction false} RunSnoc(s: State, c: Cfg, ops: seq<Op>, op: Op)
    requires ValidCfg(c) && AllFit(ops) && Fits(op)
    ensures AllFit(ops + [op])
    ensures var s1 := Replay(s, c, ops);
      && Replay(s, c, ops + [op]) == Step(s1, c, op)
      && AllMoves(s, c, ops + [op]) == AllMoves(s, c, ops) + [Moves(s1, c, op)]
      && TicksTaken(s, c, ops + [op]) == TicksTaken(s, c, ops) + TickOf(s1, op)
    decreases |ops|
  {
    hide Step, Moves, TickOf, Fits;
    if ops == [] {
      assert ops + [op] == [op] && [op][1..] == [];
    } else {
      assert (ops + [op])[1..] == ops[1..] + [op] && (ops + [op])[0] == ops[0];
      RunSnoc(Step(s, c, ops[0]), c, ops[1..], op);
    }
  }

  // A series moves what its parts move, in each direction.
  lemma {:induction false} TotalSplits(moved: seq<nat>, ops: seq<Op>, more: seq<nat>, ops': seq<Op>, isWrite: bool)
    requires |moved| == |ops| && |more| == |ops'|
    ensures Total(moved + more, ops + ops', isWrite) == Total(moved, ops, isWrite) + Total(more, ops', isWrite)
    decreases |ops|
  {
    if ops == [] {
      assert ops + ops' == ops' && moved + more == more;
    } else {
      assert (ops + ops')[1..] == ops[1..] + ops' && (moved + more)[1..] == moved[1..] + more;
      TotalSplits(moved[1..], ops[1..], more, ops', isWrite);
    }
  }

  lemma TotalOfOne(n: nat, op: Op, isWrite: bool)
    ensures Total([n], [op], isWrite) == if op.Transfer? && op.isWrite == isWrite then n else 0
  {
    assert [n][1..] == [] && [op][1..] == [];
  }

  /** A direction suspended for bandwidth goes on once the timer is due and its callback has run, exactly if
      the ticks since the last refill have brought more than it was overdrawn by; if not, the timer is set again. */
  lemma WakesUp(s: State, c: Cfg, tick: nat, w: bool)
    requires ValidCfg(c) && ValidBucket(s.bucket, c) && LaneOk(s.read) && LaneOk(s.write)
    requires Bandwidth in LaneIn(s, w).suspended && s.timer != Idle
    ensures var s' := Replay(s, c, [TimerDue, RunTimer(tick)]);
      var n := Elapsed(s.bucket.lastUpdated, tick);
      var ready := LimitIn(s.bucket, w) + n * RateOf(c, w).rate > 0;
      && LaneIn(s', w).suspended == LaneIn(s, w).suspended - (if ready then {Bandwidth} else {})
      && (LaneIn(s', w).running <==> ready && LaneIn(s, w).enabled && LaneIn(s, w).suspended == {Bandwidth})
      && (!ready ==> s'.timer == Pending)
  {
    var due := Step(s, c, TimerDue);
    var n := Elapsed(s.bucket.lastUpdated, tick);
    assert [TimerDue, RunTimer(tick)][1..] == [RunTimer(tick)];
    assert Replay(s, c, [TimerDue, RunTimer(tick)]) == Replay(due, c, [RunTimer(tick)]);
    assert Replay(due, c, [RunTimer(tick)]) == Replay(Refilled(due, c, tick), c, [RunTimer(tick)][1..]);
    UpdateIs(s.bucket, c, tick);
    ResumesWhen(LimitIn(s.bucket, w), RateOf(c, w), n);
    hide Update, After, Elapsed;
  }

  class Bufferevent {
    var cfg: Option<Cfg>
    var bucket: Bucket
    var read: Lane
    var write: Lane
    var timer: Timer

    /** Without a limit nothing is suspended for bandwidth; with one, no wakeup is lost. */
    ghost predicate Valid()
      reads this
    {
      && LaneOk(read) && LaneOk(write)
      && (cfg.None? ==> Bandwidth !in read.suspended && Bandwidth !in write.suspended && timer == Idle)
      && (cfg.Some? ==> ValidCfg(cfg.value) && ValidBucket(bucket, cfg.value) && NoneForgotten())
    }

    /** An empty bucket means suspended, and suspended means that the timer is on its way. */
    ghost predicate NoneForgotten()
      reads this
    {
      && (bucket.readLimit <= 0 ==> Bandwidth in read.suspended)
      && (bucket.writeLimit <= 0 ==> Bandwidth in write.suspended)
      && (Bandwidth in read.suspended || Bandwidth in write.suspended ==> timer != Idle)
    }

    function View(): State
      reads this
    {
      State(bucket, read, write, timer)
    }

    function LaneOf(isWrite: bool): Lane
      reads this
    {
      if isWrite then write else read
    }

    function Limit(isWrite: bool): int
      reads this
    {
      if isWrite then bucket.writeLimit else bucket.readLimit
    }

    constructor ()
      ensures Valid() && cfg.None? && read == write == Lane({}, false, false)
    {
      cfg, bucket, read, write, timer := None, Bucket(0, 0, 0), Lane({}, false, false), Lane({}, false, false), Idle;
    }

    method SetLane(isWrite: bool, l: Lane)
      modifies this`read, this`write
      ensures View() == WithLane(old(View()), isWrite, l)
    {
      if isWrite {
        write := l;
      } else {
        read := l;
      }
    }

    // bufferevent_suspend_*, for another reason than bandwidth
    method ChokeLane(isWrite: bool, f: Flag)
      requires Valid() && f != Bandwidth
      modifies this`read, this`write
      ensures Valid() && View() == WithLane(old(View()), isWrite, Suspend(old(LaneOf(isWrite)), f))
      ensures !LaneOf(isWrite).running && LaneOf(isWrite).suspended == old(LaneOf(isWrite).suspended) + {f}
    {
      SetLane(isWrite, Suspend(LaneOf(isWrite), f));
    }

    method ReleaseLane(isWrite: bool, f: Flag)
      requires Valid() && f != Bandwidth
      modifies this`read, this`write
      ensures Valid() && View() == WithLane(old(View()), isWrite, Unsuspend(old(LaneOf(isWrite)), f))
      ensures LaneOf(isWrite).suspended == old(LaneOf(isWrite).suspended) - {f}
      ensures LaneOf(isWrite).running <==> LaneOf(isWrite).enabled && LaneOf(isWrite).suspended == {}
    {
      SetLane(isWrite, Unsuspend(LaneOf(isWrite), f));
    }

    // bufferevent_enable
    method EnableLane(isWrite: bool)
      requires Valid()
      modifies this`read, this`write
      ensures Valid() && View() == WithLane(old(View()), isWrite, Started(old(LaneOf(isWrite))))
      ensures LaneOf(isWrite) == Lane(old(LaneOf(isWrite).suspended), true, old(LaneOf(isWrite).suspended) == {})
    {
      SetLane(isWrite, Started(LaneOf(isWrite)));
    }

    // bufferevent_disable
    method DisableLane(isWrite: bool)
      requires Valid()
      modifies this`read, this`write
      ensures Valid() && View() == WithLane(old(View()), isWrite, Stopped(old(LaneOf(isWrite))))
      ensures LaneOf(isWrite) == Lane(old(LaneOf(isWrite).suspended), false, false)
    {
      SetLane(isWrite, Stopped(LaneOf(isWrite)));
    }

    // bufferevent_update_buckets
    method UpdateBuckets(tick: nat)
      requires Valid() && cfg.Some?
      modifies this`bucket
      ensures Valid() && bucket == Update(old(bucket), cfg.value, tick)
      ensures forall w: bool ::
                Limit(w) == After(old(Limit(w)), RateOf(cfg.value, w),
                                  Elapsed(old(bucket.lastUpdated), tick)) >= old(Limit(w))
    {
      UpdateIs(bucket, cfg.value, tick);
      AfterGrows(bucket.readLimit, cfg.value.read, Elapsed(bucket.lastUpdated, tick));
      AfterGrows(bucket.writeLimit, cfg.value.write, Elapsed(bucket.lastUpdated, tick));
      hide Refill, After;
      if tick != bucket.lastUpdated {
        bucket := Update(bucket, cfg.value, tick);
      }
    }

    /** _bufferevent_get_rlim_max */
    method GetMax(isWrite: bool, tick: nat, group: Option<Group>) returns (r: nat)
      requires Valid() && (group.Some? ==> group.value.members > 0)
      modifies this`bucket, this`read, this`write
      ensures Valid()
      ensures r == Allowance(if cfg.Some? then Limit(isWrite) else 16384, group)
      ensures group.None? ==> r == Max(0, if cfg.Some? then Limit(isWrite) else 16384)
      ensures group.Some? && group.value.suspended ==> r == 0
      ensures group.Some? && !group.value.suspended ==>
                r == Max(0, Min(if cfg.Some? then Limit(isWrite) else 16384,
                                Max(group.value.minShare, Quotient(group.value.limit, group.value.members))))
      ensures cfg.Some? ==> View() == Looked(old(View()), cfg.value, isWrite, tick, group)
      ensures cfg.Some? ==>
                forall w: bool ::
                  Limit(w) == After(old(Limit(w)), RateOf(cfg.value, w), Elapsed(old(bucket.lastUpdated), tick))
      ensures cfg.None? ==> bucket == old(bucket)
      ensures LaneOf(!isWrite) == old(LaneOf(!isWrite)) && LaneOf(isWrite).enabled == old(LaneOf(isWrite).enabled)
      ensures LaneOf(isWrite).suspended ==
                old(LaneOf(isWrite).suspended) + if group.Some? && group.value.suspended then {BandwidthGroup} else {}
    {
      hide After, Update, Quotient;
      var maxSoFar: int := MAX_EVER;
      if cfg.Some? {
        UpdateBuckets(tick);
        maxSoFar := Limit(isWrite);
      }
      if group.Some? {
        var share: int;
        if group.value.suspended {
          ChokeLane(isWrite, BandwidthGroup);
          share := 0;
        } else {
          share := Share(group.value);
        }
        if maxSoFar > share {
          maxSoFar := share;
        }
      }
      r := if maxSoFar < 0 then 0 else maxSoFar;
    }

    /** _bufferevent_decrement_read_buckets and _write_buckets, without the group. No wakeup is lost
        even if bytes are given back; only the maximum may then be exceeded. */
    method Decrement(isWrite: bool, bytes: int)
      requires Valid() && IsLimit(Limit(isWrite) - bytes)
      modifies this`bucket, this`read, this`write, this`timer
      ensures cfg.None? ==> Valid() && View() == old(View())
      ensures cfg.Some? ==> View() == Decremented(old(View()), isWrite, bytes) && NoneForgotten()
      ensures cfg.Some? ==> (Valid() <==> Limit(isWrite) <= RateOf(cfg.value, isWrite).maximum)
      ensures cfg.Some? ==> Limit(isWrite) == old(Limit(isWrite)) - bytes && Limit(!isWrite) == old(Limit(!isWrite))
      ensures cfg.Some? ==> (Bandwidth in LaneOf(isWrite).suspended <==> Limit(isWrite) <= 0)
      ensures LaneOf(isWrite).suspended - {Bandwidth} == old(LaneOf(isWrite).suspended) - {Bandwidth}
      ensures LaneOf(!isWrite) == old(LaneOf(!isWrite)) && LaneOf(isWrite).enabled == old(LaneOf(isWrite).enabled)
      ensures cfg.Some? ==> timer == TimerAfter(old(timer), old(LaneOf(isWrite)), LaneOf(!isWrite), Limit(isWrite))
      ensures bucket.lastUpdated == old(bucket.lastUpdated)
    {
      if cfg.Some? {
        bucket := Charged(bucket, isWrite, bytes);
        if Limit(isWrite) <= 0 {
          SetLane(isWrite, Suspend(LaneOf(isWrite), Bandwidth));
          timer := Pending;
        } else if Bandwidth in LaneOf(isWrite).suspended {
          if Bandwidth !in LaneOf(!isWrite).suspended {
            timer := Idle;
          }
          SetLane(isWrite, Unsuspend(LaneOf(isWrite), Bandwidth));
        }
      }
    }

    /** bufferevent_decrement_read_limit and _write_limit: acting only on a change of sign is enough
        for no wakeup to be lost, also if bytes are given back. */
    method DecrementLimit(isWrite: bool, decr: int)
      requires Valid() && cfg.Some? && IsLimit(Limit(isWrite) - decr)
      modifies this`bucket, this`read, this`write, this`timer
      ensures NoneForgotten() && bucket == Charged(old(bucket), isWrite, decr)
      ensures Valid() <==> Limit(isWrite) <= RateOf(cfg.value, isWrite).maximum
      ensures (old(Limit(isWrite)) > 0) == (Limit(isWrite) > 0) ==>
                read == old(read) && write == old(write) && timer == old(timer)
      ensures (old(Limit(isWrite)) > 0) != (Limit(isWrite) > 0) ==> View() == Decremented(old(View()), isWrite, decr)
    {
      var oldLimit := Limit(isWrite);
      bucket := Charged(bucket, isWrite, decr);
      if oldLimit > 0 && Limit(isWrite) <= 0 {
        SetLane(isWrite, Suspend(LaneOf(isWrite), Bandwidth));
        timer := Pending;
      } else if oldLimit <= 0 && Limit(isWrite) > 0 {
        if Bandwidth !in LaneOf(!isWrite).suspended {
          timer := Idle;
        }
        SetLane(isWrite, Unsuspend(LaneOf(isWrite), Bandwidth));
      }
    }

    // The timer is due: the event loop makes it active.
    method FireTimer()
      requires Valid() && timer == Pending
      modifies this`timer
      ensures Valid() && timer == Active
    {
      timer := Active;
    }

    // Whether the direction stays suspended for bandwidth
    method Recheck(isWrite: bool) returns (again: bool)
      modifies this`read, this`write
      ensures View() == WithLane(old(View()), isWrite, Rechecked(old(LaneOf(isWrite)), Limit(isWrite)))
      ensures again <==> Bandwidth in LaneOf(isWrite).suspended
    {
      again := false;
      if Bandwidth in LaneOf(isWrite).suspended {
        if Limit(isWrite) > 0 {
          SetLane(isWrite, Unsuspend(LaneOf(isWrite), Bandwidth));
        } else {
          again := true;
        }
      }
    }

    /** _bev_refill_callback: after it a direction is suspended for bandwidth exactly if the ticks
        since the last refill have not brought more than it was overdrawn by, and then the timer is
        pending again. */
    method RefillCallback(tick: nat)
      requires Valid() && timer == Active
      modifies this`bucket, this`read, this`write, this`timer
      ensures Valid() && cfg.Some? && View() == Refilled(old(View()), cfg.value, tick)
      ensures forall w: bool ::
                Limit(w) == After(old(Limit(w)), RateOf(cfg.value, w), Elapsed(old(bucket.lastUpdated), tick))
      ensures forall w: bool :: Bandwidth in LaneOf(w).suspended <==>
                old(Limit(w)) + Elapsed(old(bucket.lastUpdated), tick) * RateOf(cfg.value, w).rate <= 0
      ensures forall w: bool ::
                LaneOf(w).suspended - {Bandwidth} == old(LaneOf(w)).suspended - {Bandwidth}
                  && LaneOf(w).enabled == old(LaneOf(w)).enabled
      ensures timer == if Bandwidth in read.suspended || Bandwidth in write.suspended then Pending else Idle
    {
      ghost var n := Elapsed(bucket.lastUpdated, tick);
      ResumesWhen(bucket.readLimit, cfg.value.read, n);
      ResumesWhen(bucket.writeLimit, cfg.value.write, n);
      hide After, Update, Elapsed, ValidBucket, ValidCfg;
      UpdateBuckets(tick);
      timer := Idle;
      var againRead := Recheck(false);
      var againWrite := Recheck(true);
      if againRead || againWrite {
        timer := Pending;
      }
    }

    // Suspended if its bucket is empty, and only then
    method Settle(isWrite: bool) returns (suspended: bool)
      modifies this`read, this`write
      ensures LaneOf(!isWrite) == old(LaneOf(!isWrite)) && suspended == (Limit(isWrite) <= 0)
      ensures LaneOf(isWrite) == if suspended then Suspend(old(LaneOf(isWrite)), Bandwidth)
                                 else Unsuspend(old(LaneOf(isWrite)), Bandwidth)
    {
      suspended := Limit(isWrite) <= 0;
      if suspended {
        SetLane(isWrite, Suspend(LaneOf(isWrite), Bandwidth));
      } else {
        SetLane(isWrite, Unsuspend(LaneOf(isWrite), Bandwidth));
      }
    }

    /** bufferevent_set_rate_limit; `same` says that c is the configuration already in use. */
    method SetRateLimit(c: Option<Cfg>, same: bool, tick: nat)
      requires Valid() && (c.Some? ==> ValidCfg(c.value)) && (same ==> c.Some? && c == cfg)
      modifies this
      ensures Valid() && cfg == c
      ensures same ==> View() == old(View())
      ensures c.Some? && !same ==> bucket == Init(old(bucket), c.value, tick, old(cfg).Some?)
      ensures c.Some? && !same && old(cfg).None? ==> bucket == Bucket(c.value.read.rate, c.value.write.rate, tick)
      ensures c.Some? && !same && old(cfg).Some? ==>
                && bucket.lastUpdated == old(bucket.lastUpdated)
                && forall w: bool :: Limit(w) == Min(old(Limit(w)), RateOf(c.value, w).maximum)
      ensures c.Some? && !same ==> forall w: bool :: Bandwidth in LaneOf(w).suspended <==> Limit(w) <= 0
      ensures !same ==> timer == if Bandwidth in read.suspended || Bandwidth in write.suspended then Pending else Idle
      ensures forall w: bool ::
                LaneOf(w).suspended - {Bandwidth} == old(LaneOf(w)).suspended - {Bandwidth}
                  && LaneOf(w).enabled == old(LaneOf(w)).enabled
    {
      if c.None? {
        cfg := None;
        read, write, timer := Unsuspend(read, Bandwidth), Unsuspend(write, Bandwidth), Idle;
        return;
      }
      if same {
        return;
      }
      bucket := Init(bucket, c.value, tick, cfg.Some?);
      cfg, timer := c, Idle;
      var noRead := Settle(false);
      var noWrite := Settle(true);
      if noRead || noWrite {
        timer := Pending;
      }
    }

    // A read or write of as much as is wanted, and at most what GetMax allows
    method TransferSome(isWrite: bool, want: nat, tick: nat, group: Option<Group>) returns (n: nat)
      requires Valid() && cfg.Some? && (group.Some? ==> group.value.members > 0)
      modifies this`bucket, this`read, this`write, this`timer
      ensures Valid() && n == Moves(old(View()), cfg.value, Transfer(isWrite, want, tick, group))
      ensures View() == Step(old(View()), cfg.value, Transfer(isWrite, want, tick, group))
      ensures Limit(isWrite) ==
                After(old(Limit(isWrite)), RateOf(cfg.value, isWrite), Elapsed(old(bucket.lastUpdated), tick)) - n
      ensures n > 0 ==> Limit(isWrite) >= 0
      ensures var refilled :=
          After(old(Limit(isWrite)), RateOf(cfg.value, isWrite), Elapsed(old(bucket.lastUpdated), tick));
        && (group.None? ==> n == Min(want, Max(0, refilled)))
        && (group.Some? && group.value.suspended ==> n == 0)
        && (group.Some? && !group.value.suspended ==>
              n == Min(want, Max(0, Min(refilled, Max(group.value.minShare,
                                                      Quotient(group.value.limit, group.value.members))))))
      ensures Limit(!isWrite) ==
                After(old(Limit(!isWrite)), RateOf(cfg.value, !isWrite), Elapsed(old(bucket.lastUpdated), tick))
      ensures LaneOf(!isWrite) == old(LaneOf(!isWrite)) && LaneOf(isWrite).enabled == old(LaneOf(isWrite).enabled)
      ensures Bandwidth in LaneOf(isWrite).suspended <==> Limit(isWrite) <= 0
      ensures LaneOf(isWrite).suspended - {Bandwidth} ==
                old(LaneOf(isWrite).suspended) - {Bandwidth}
                + if group.Some? && group.value.suspended then {BandwidthGroup} else {}
      ensures timer == TimerAfter(old(timer), old(LaneOf(isWrite)), LaneOf(!isWrite), Limit(isWrite))
    {
      hide After, Share, Update, Suspend, Unsuspend, Quotient;
      var most := GetMax(isWrite, tick, group);
      n := if want < most then want else most;
      Decrement(isWrite, n);
    }

    method Perform(op: Op) returns (n: nat)
      requires Valid() && cfg.Some? && Fits(op)
      modifies this`bucket, this`read, this`write, this`timer
      ensures Valid() && View() == Step(old(View()), cfg.value, op) && n == Moves(old(View()), cfg.value, op)
    {
      n := 0;
      match op
      case Transfer(isWrite, want, tick, group) => n := TransferSome(isWrite, want, tick, group);
      case TimerDue => {
        if timer == Pending {
          FireTimer();
        }
      }
      case RunTimer(tick) => {
        if timer == Active {
          RefillCallback(tick);
        }
      }
      case Choke(isWrite, flag) => ChokeLane(isWrite, flag);
      case Release(isWrite, flag) => ReleaseLane(isWrite, flag);
      case Enable(isWrite) => EnableLane(isWrite);
      case Disable(isWrite) => DisableLane(isWrite);
    }

    /** Any series of operations: what each one moves, that no wakeup is lost in the end, and that
        in each direction no more has gone through than what was in the bucket and what the ticks
        brought. */
    method Serve(ops: seq<Op>) returns (moved: seq<nat>)
      requires Valid() && cfg.Some? && AllFit(ops)
      modifies this`bucket, this`read, this`write, this`timer
      ensures Valid() && View() == Replay(old(View()), cfg.value, ops) && moved == AllMoves(old(View()), cfg.value, ops)
      ensures var e := TotalElapsed(old(bucket.lastUpdated), TicksTaken(old(View()), cfg.value, ops));
        && Within(moved, ops, false, old(bucket.readLimit), e, cfg.value.read.rate)
        && Within(moved, ops, true, old(bucket.writeLimit), e, cfg.value.write.rate)
    {
      ghost var s0, c := View(), cfg.value;
      RunBound(s0, c, ops, false);
      RunBound(s0, c, ops, true);
      hide Step, Moves, TicksTaken, TotalElapsed, Within, NoneForgotten, LaneOk, ValidBucket;
      moved := [];
      assert ops[0..] == ops;
      for i := 0 to |ops|
        invariant Valid() && Replay(View(), c, ops[i..]) == Replay(s0, c, ops)
        invariant moved + AllMoves(View(), c, ops[i..]) == AllMoves(s0, c, ops)
      {
        assert ops[i..][1..] == ops[i + 1..];
        var n := Perform(ops[i]);
        moved := moved + [n];
      }
      assert ops[|ops|..] == [];
    }
  }

  lemma AfterGrows(limit: int, r: Rate, n: nat)
    requires limit <= r.maximum
    ensures After(limit, r, n) >= limit
  {
    assert n * r.rate >= 0;
  }

  // ev_token_bucket_init
  function Init(b: Bucket, c: Cfg, tick: nat, reinitialize: bool): Bucket {
    if reinitialize
      then b.(readLimit := Min(b.readLimit, c.read.maximum), writeLimit := Min(b.writeLimit, c.write.maximum))
    else Bucket(c.read.rate, c.write.rate, tick)
  }

  // A bucket is no longer empty as soon as the ticks have brought more than it was overdrawn by.
  lemma ResumesWhen(limit: int, r: Rate, n: nat)
    requires ValidRate(r)
    ensures After(limit, r, n) > 0 <==> n * r.rate > -limit
  {
  }
}
