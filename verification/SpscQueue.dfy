/**
 The single-producer single-consumer queue, as interleaved atomic steps.

 Each load and store of an index another thread writes is one step, and so are constructing,
 moving out and destroying a record. An index is loaded before it is needed, so what a thread
 knows about the other may be out of date.
 */
module SpscQueue {
  import opened Wrappers

  // write(): idle, after finding room, after constructing the record
  datatype Producer<+T> = PIdle | PRoom(v: T) | PBuilt(v: T)

  // read() and popFront(): idle, after finding a record, after moving it out, after destroying it
  datatype Consumer<+T> = CIdle | CFound | CMoved(v: T) | CDestroyed(v: T)

  datatype Queue<T> = Queue(
    records: seq<Option<T>>,          // None: not constructed
    readIndex: nat, writeIndex: nat,
    producer: Producer<T>, consumer: Consumer<T>,
    written: seq<T>, taken: seq<T>)   // what has been written, and what has been consumed

  datatype Step<T> =
    | CheckRoom(v: T) | Construct | Publish
    | CheckFront | MoveOut | Destroy | Release

  function Next(i: nat, size: nat): nat {
    if i + 1 == size then 0 else i + 1
  }

  // The slot of the k-th value
  function Slot(k: nat, size: nat): nat {
    if k == 0 then 0 else Next(Slot(k - 1, size), size)
  }

  lemma {:induction false} SlotShift(k: nat, d: nat, size: nat)
    requires size >= 2 && d < size
    ensures Slot(k, size) < size
    ensures Slot(k + d, size) == if Slot(k, size) + d < size then Slot(k, size) + d else Slot(k, size) + d - size
    decreases k, d
  {
    if d > 0 {
      SlotShift(k, d - 1, size);
    } else if k > 0 {
      SlotShift(k - 1, 0, size);
    }
  }

  // Slots of fewer than size consecutive values are different.
  lemma SlotsDiffer(size: nat, j: nat, k: nat)
    requires size >= 2 && j < k < j + size
    ensures Slot(j, size) != Slot(k, size) && Slot(j, size) < size && Slot(k, size) < size
  {
    SlotShift(j, k - j, size);
  }

  predicate Enabled<T>(q: Queue<T>, s: Step<T>) {
    match s
    case CheckRoom(_) => q.producer.PIdle?
    case Construct => q.producer.PRoom?
    case Publish => q.producer.PBuilt?
    case CheckFront => q.consumer.CIdle?
    case MoveOut => q.consumer.CFound?
    case Destroy => q.consumer.CFound? || q.consumer.CMoved?
    case Release => q.consumer.CDestroyed?
  }

  // popFront destroys without moving out; the model notes the value all the same.
  function Take<T>(q: Queue<T>, s: Step<T>): Queue<T>
    requires Inv(q) && Enabled(q, s)
  {
    var size := |q.records|;
    InvBasics(q);
    match s
    case CheckRoom(v) => if Next(q.writeIndex, size) != q.readIndex then q.(producer := PRoom(v)) else q
    case Construct => q.(records := q.records[q.writeIndex := Some(q.producer.v)], producer := PBuilt(q.producer.v))
    case Publish => q.(writeIndex := Next(q.writeIndex, size), producer := PIdle, written := q.written + [q.producer.v])
    case CheckFront => if q.readIndex != q.writeIndex then q.(consumer := CFound) else q
    case MoveOut => q.(consumer := CMoved(q.records[q.readIndex].value))
    case Destroy => q.(records := q.records[q.readIndex := None], consumer := CDestroyed(q.records[q.readIndex].value))
    case Release => q.(readIndex := Next(q.readIndex, size), consumer := CIdle, taken := q.taken + [q.consumer.v])
  }

  // ---- The invariant ----

  ghost predicate Indices<T>(q: Queue<T>) {
    && |q.records| >= 2
    && |q.taken| <= |q.written| < |q.taken| + |q.records|
    && q.readIndex == Slot(|q.taken|, |q.records|)
    && q.writeIndex == Slot(|q.written|, |q.records|)
  }

  // What the slot of value k holds, for the values from the next one to take on
  ghost function Expected<T>(q: Queue<T>, k: nat): Option<T>
    requires |q.taken| <= k
  {
    if k < |q.written| then
      if k == |q.taken| && q.consumer.CDestroyed? then None else Some(q.written[k])
    else if k == |q.written| && q.producer.PBuilt? then Some(q.producer.v)
    else None
  }

  ghost predicate Slots<T>(q: Queue<T>)
    requires Indices(q)
  {
    forall k :: |q.taken| <= k < |q.taken| + |q.records| ==>
      Slot(k, |q.records|) < |q.records| && q.records[Slot(k, |q.records|)] == Expected(q, k)
  }

  ghost predicate Inv<T>(q: Queue<T>) {
    && Indices(q) && Slots(q)
    && q.taken == q.written[..|q.taken|]
    && (!q.producer.PIdle? ==> |q.written| < |q.taken| + |q.records| - 1)
    && (!q.consumer.CIdle? ==> |q.taken| < |q.written|)
    && (q.consumer.CMoved? || q.consumer.CDestroyed? ==> q.consumer.v == q.written[|q.taken|])
  }

  /** No live slot is overwritten and no unconstructed slot is read. */
  lemma InvBasics<T>(q: Queue<T>)
    requires Inv(q)
    ensures q.readIndex < |q.records| && q.writeIndex < |q.records|
    ensures q.producer.PRoom? ==> q.records[q.writeIndex].None?
    ensures q.consumer.CFound? || q.consumer.CMoved? ==> q.records[q.readIndex] == Some(q.written[|q.taken|])
    ensures q.readIndex == q.writeIndex <==> |q.taken| == |q.written|
    ensures Next(q.writeIndex, |q.records|) == q.readIndex <==> |q.written| == |q.taken| + |q.records| - 1
  {
    var size := |q.records|;
    SlotShift(|q.taken|, |q.written| - |q.taken|, size);
    assert q.records[Slot(|q.taken|, size)] == Expected(q, |q.taken|);
    if |q.written| < |q.taken| + size {
      assert q.records[Slot(|q.written|, size)] == Expected(q, |q.written|);
    }
  }

  lemma ConstructKeepsSlots<T>(q: Queue<T>)
    requires Inv(q) && Enabled(q, Construct)
    ensures Inv(Take(q, Construct))
  {
    InvBasics(q);
    var q', size := Take(q, Construct), |q.records|;
    forall k | |q.taken| <= k < |q.taken| + size
      ensures Slot(k, size) < size && q'.records[Slot(k, size)] == Expected(q', k)
    {
      assert q.records[Slot(k, size)] == Expected(q, k);
      if k < |q.written| {
        SlotsDiffer(size, k, |q.written|);
      } else if k > |q.written| {
        SlotsDiffer(size, |q.written|, k);
      }
    }
  }

  lemma DestroyKeepsSlots<T>(q: Queue<T>)
    requires Inv(q) && Enabled(q, Destroy)
    ensures Inv(Take(q, Destroy))
  {
    InvBasics(q);
    var q', size := Take(q, Destroy), |q.records|;
    forall k | |q.taken| <= k < |q.taken| + size
      ensures Slot(k, size) < size && q'.records[Slot(k, size)] == Expected(q', k)
    {
      assert q.records[Slot(k, size)] == Expected(q, k);
      if k > |q.taken| {
        SlotsDiffer(size, |q.taken|, k);
      }
    }
  }

  lemma ReleaseKeepsSlots<T>(q: Queue<T>)
    requires Inv(q) && Enabled(q, Release)
    ensures Inv(Take(q, Release))
  {
    InvBasics(q);
    var q', size := Take(q, Release), |q.records|;
    assert Slot(|q.taken| + 1, size) == Next(q.readIndex, size);
    forall k | |q'.taken| <= k < |q'.taken| + size
      ensures Slot(k, size) < size && q'.records[Slot(k, size)] == Expected(q', k)
    {
      if k < |q.taken| + size {
        assert q.records[Slot(k, size)] == Expected(q, k);
      } else {
        // the slot just left is the one of the value a whole round later
        SlotShift(|q.taken|, size - 1, size);
        assert q.records[Slot(|q.taken|, size)] == Expected(q, |q.taken|);
      }
    }
  }

  lemma OtherKeepsSlots<T>(q: Queue<T>, s: Step<T>)
    requires Inv(q) && Enabled(q, s) && !s.Construct? && !s.Destroy? && !s.Release?
    ensures Inv(Take(q, s))
  {
    InvBasics(q);
    var q', size := Take(q, s), |q.records|;
    assert Slot(|q.written| + 1, size) == Next(q.writeIndex, size);
    forall k | |q.taken| <= k < |q.taken| + size
      ensures Slot(k, size) < size && q'.records[Slot(k, size)] == Expected(q', k)
    {
      assert q.records[Slot(k, size)] == Expected(q, k);
    }
  }

  lemma StepKeepsInv<T>(q: Queue<T>, s: Step<T>)
    requires Inv(q) && Enabled(q, s)
    ensures Inv(Take(q, s))
  {
    match s
    case Construct => ConstructKeepsSlots(q);
    case Destroy => DestroyKeepsSlots(q);
    case Release => ReleaseKeepsSlots(q);
    case _ => OtherKeepsSlots(q, s);
  }

  // ---- What the steps do ----

  /** isFull and isEmpty as the two sides see them: a write finds room exactly if fewer than size - 1 values are
      stored, and a read finds a record exactly if one is. Nothing else changes. */
  lemma ChecksAreExact<T>(q: Queue<T>, v: T)
    requires Inv(q)
    ensures Enabled(q, CheckRoom(v)) <==> q.producer.PIdle?
    ensures q.producer.PIdle? ==>
              Take(q, CheckRoom(v)) ==
                if |q.written| - |q.taken| < |q.records| - 1 then q.(producer := PRoom(v)) else q
    ensures Enabled(q, CheckFront) <==> q.consumer.CIdle?
    ensures q.consumer.CIdle? ==>
              Take(q, CheckFront) == if |q.written| > |q.taken| then q.(consumer := CFound) else q
  {
    InvBasics(q);
  }

  // With room found, the value is put into the free slot and then counts as written.
  lemma WriteDoes<T>(q: Queue<T>)
    requires Inv(q) && q.producer.PRoom?
    ensures Enabled(q, Construct) && Inv(Take(q, Construct))
    ensures var q1 := Take(q, Construct);
      && |q1.records| == |q.records| && q.writeIndex < |q.records|
      && q.records[q.writeIndex].None? && q1.records == q.records[q.writeIndex := Some(q.producer.v)]
      && q1.written == q.written && q1.taken == q.taken && q1.consumer == q.consumer
      && Enabled(q1, Publish)
      && var q2 := Take(q1, Publish);
         && q2.written == q.written + [q.producer.v] && q2.taken == q.taken && q2.producer.PIdle?
         && q2.records == q1.records && q2.consumer == q.consumer && q2.readIndex == q.readIndex
  {
    InvBasics(q);
    StepKeepsInv(q, Construct);
  }

  // With a record found, the oldest value not yet taken is moved out, its slot is cleared, and then it counts as taken.
  lemma ReadDoes<T>(q: Queue<T>)
    requires Inv(q) && q.consumer.CFound?
    ensures Enabled(q, MoveOut) && Take(q, MoveOut) == q.(consumer := CMoved(q.written[|q.taken|]))
    ensures Inv(Take(q, MoveOut)) && Enabled(Take(q, MoveOut), Destroy) && Enabled(q, Destroy)
    ensures forall popped :: popped == q || popped == Take(q, MoveOut) ==>
      && var q1 := Take(popped, Destroy);
         && q.readIndex < |q.records| && q1.records == q.records[q.readIndex := None] && q1.taken == q.taken
         && q1.consumer == CDestroyed(q.written[|q.taken|]) && q1.written == q.written && q1.producer == q.producer
         && Inv(q1) && Enabled(q1, Release)
         && var q2 := Take(q1, Release);
            && q2.taken == q.taken + [q.written[|q.taken|]] && q2.written == q.written && q2.consumer.CIdle?
            && q2.records == q1.records && q2.producer == q.producer && q2.writeIndex == q.writeIndex
  {
    InvBasics(q);
    StepKeepsInv(q, MoveOut);
    StepKeepsInv(q, Destroy);
    StepKeepsInv(Take(q, MoveOut), Destroy);
  }

  // ---- Whole runs ----

  ghost predicate CanRun<T>(q: Queue<T>, steps: seq<Step<T>>)
    requires Inv(q)
    decreases steps
  {
    steps == [] || (Enabled(q, steps[0]) && (StepKeepsInv(q, steps[0]); CanRun(Take(q, steps[0]), steps[1..])))
  }

  ghost function Run<T>(q: Queue<T>, steps: seq<Step<T>>): (r: Queue<T>)
    requires Inv(q) && CanRun(q, steps)
    ensures Inv(r) && |r.records| == |q.records|
    decreases steps
  {
    if steps == [] then q
    else
      StepKeepsInv(q, steps[0]);
      Run(Take(q, steps[0]), steps[1..])
  }

  lemma {:induction false} RunSnoc<T>(q: Queue<T>, steps: seq<Step<T>>, s: Step<T>)
    requires Inv(q) && CanRun(q, steps)
    ensures CanRun(q, steps + [s]) <==> Enabled(Run(q, steps), s)
    ensures Enabled(Run(q, steps), s) ==> Run(q, steps + [s]) == Take(Run(q, steps), s)
    decreases steps
  {
    hide Inv, Enabled;
    if steps == [] {
      assert steps + [s] == [s] && [s][1..] == [];
      if Enabled(q, s) {
        StepKeepsInv(q, s);
      }
    } else {
      assert (steps + [s])[0] == steps[0] && (steps + [s])[1..] == steps[1..] + [s];
      StepKeepsInv(q, steps[0]);
      RunSnoc(Take(q, steps[0]), steps[1..], s);
    }
  }

  lemma {:induction false} SlotInRange(k: nat, size: nat)
    requires size >= 2
    ensures Slot(k, size) < size
  {
    SlotShift(k, 0, size);
  }

  function NewQueue<T>(size: nat): (q: Queue<T>)
    requires size >= 2
    ensures Inv(q) && |q.records| == size && q.written == q.taken == [] && q.producer.PIdle? && q.consumer.CIdle?
  {
    assert forall k: nat :: Slot(k, size) < size by {
      forall k: nat ensures Slot(k, size) < size { SlotInRange(k, size); }
    }
    Queue(seq(size, _ => None), 0, 0, PIdle, CIdle, [], [])
  }

  /** In every interleaving the values taken are a prefix of the values written, and no more
      than size - 1 are stored. */
  lemma EveryRunIsFifo<T>(size: nat, steps: seq<Step<T>>)
    requires size >= 2 && CanRun(NewQueue<T>(size), steps)
    ensures var q := Run(NewQueue<T>(size), steps);
      && q.taken <= q.written
      && |q.written| - |q.taken| <= size - 1 == |q.records| - 1
      && (q.consumer.CMoved? ==> q.consumer.v == q.written[|q.taken|])
      && (q.producer.PRoom? ==> q.writeIndex < |q.records| && q.records[q.writeIndex].None?)
  {
    InvBasics(Run(NewQueue<T>(size), steps));
  }

  // ---- sizeGuess ----

  function SizeGuess(readIndex: nat, writeIndex: nat, size: nat): int {
    var ret := writeIndex - readIndex;
    if ret < 0 then ret + size else ret
  }

  lemma SizeGuessIsSize<T>(q: Queue<T>)
    requires Inv(q)
    ensures SizeGuess(q.readIndex, q.writeIndex, |q.records|) == |q.written| - |q.taken|
  {
    SlotShift(|q.taken|, |q.written| - |q.taken|, |q.records|);
  }

  predicate ByConsumer<T>(s: Step<T>) {
    s.CheckFront? || s.MoveOut? || s.Destroy? || s.Release?
  }

  // One side's steps only change its own end.
  lemma {:induction false} RunOneSide<T>(q: Queue<T>, steps: seq<Step<T>>, byConsumer: bool)
    requires Inv(q) && CanRun(q, steps) && forall i :: 0 <= i < |steps| ==> ByConsumer(steps[i]) == byConsumer
    ensures byConsumer ==> Run(q, steps).written == q.written && |Run(q, steps).taken| >= |q.taken|
    ensures !byConsumer ==> Run(q, steps).taken == q.taken && |Run(q, steps).written| >= |q.written|
    decreases steps
  {
    if steps != [] {
      assert ByConsumer(steps[0]) == byConsumer;
      StepKeepsInv(q, steps[0]);
      RunOneSide(Take(q, steps[0]), steps[1..], byConsumer);
    }
  }

  /** The indices are loaded in q; by the time the caller uses the guess, the other side may have
      moved on. The producer's guess is never too low and the consumer's never too high. */
  lemma SizeGuessBounds<T>(q: Queue<T>, steps: seq<Step<T>>, byConsumer: bool)
    requires Inv(q) && CanRun(q, steps) && forall i :: 0 <= i < |steps| ==> ByConsumer(steps[i]) == byConsumer
    ensures var later := Run(q, steps); var guess := SizeGuess(q.readIndex, q.writeIndex, |q.records|);
      if byConsumer then guess >= |later.written| - |later.taken|   // guessed by the producer
      else guess <= |later.written| - |later.taken|                 // guessed by the consumer
  {
    SizeGuessIsSize(q);
    RunOneSide(q, steps, byConsumer);
  }

  // The records with the values before k destroyed
  ghost predicate DestroyedUpTo<T>(q: Queue<T>, records: seq<Option<T>>, k: nat) {
    var size := |q.records|;
    && |records| == size
    && forall j :: |q.taken| <= j < |q.taken| + size ==>
         Slot(j, size) < size && records[Slot(j, size)] == if j < k then None else Expected(q, j)
  }

  lemma DestroyOne<T>(q: Queue<T>, records: seq<Option<T>>, k: nat)
    requires Inv(q) && DestroyedUpTo(q, records, k) && |q.taken| <= k < |q.written|
    ensures Slot(k, |q.records|) < |q.records| && records[Slot(k, |q.records|)] == Expected(q, k)
    ensures DestroyedUpTo(q, records[Slot(k, |q.records|) := None], k + 1)
  {
    var size := |q.records|;
    forall j | |q.taken| <= j < |q.taken| + size && j != k
      ensures Slot(j, size) != Slot(k, size)
    {
      if j < k {
        SlotsDiffer(size, j, k);
      } else {
        SlotsDiffer(size, k, j);
      }
    }
  }

  lemma AllDestroyed<T>(q: Queue<T>, records: seq<Option<T>>)
    requires Inv(q) && q.producer.PIdle? && DestroyedUpTo(q, records, |q.written|)
    ensures forall i :: 0 <= i < |records| ==> records[i].None?
  {
    forall i | 0 <= i < |records|
      ensures records[i].None?
    {
      var j := SlotHit(|q.taken|, i, |q.records|);
    }
  }

  /** The destructor destroys each value that was written and not taken, once and in order, and
      nothing else. */
  method Destruct<T>(q: Queue<T>) returns (destroyed: seq<T>, records: seq<Option<T>>)
    requires Inv(q) && q.producer.PIdle? && q.consumer.CIdle?
    ensures |q.taken| <= |q.written| && destroyed == q.written[|q.taken|..]
    ensures |records| == |q.records| && forall i :: 0 <= i < |records| ==> records[i].None?
  {
    var size := |q.records|;
    records := q.records;
    destroyed := [];
    var pread := q.readIndex;
    ghost var k := |q.taken|;
    InvBasics(q);
    assert DestroyedUpTo(q, records, k);
    hide Inv, Slot, DestroyedUpTo;
    while pread != q.writeIndex
      invariant |q.taken| <= k <= |q.written| && pread == Slot(k, size) < size
      invariant DestroyedUpTo(q, records, k) && destroyed == q.written[|q.taken|..k]
      decreases |q.written| - k
    {
      DestroyOne(q, records, k);
      assert records[pread] == Some(q.written[k]);
      destroyed := destroyed + [records[pread].value];
      records := records[pread := None];
      k := k + 1;
      SlotInRange(k, size);
      pread := pread + 1;
      if pread == size {
        pread := 0;
      }
    }
    SlotShift(k, |q.written| - k, size);
    AllDestroyed(q, records);
  }

  // Every slot is the slot of one of size consecutive values.
  lemma SlotHit(from: nat, i: nat, size: nat) returns (j: nat)
    requires size >= 2 && i < size
    ensures from <= j < from + size && Slot(j, size) == i
  {
    SlotInRange(from, size);
    var s := Slot(from, size);
    var d := if i >= s then i - s else i + size - s;
    SlotShift(from, d, size);
    j := from + d;
  }
}
