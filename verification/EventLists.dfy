/**
 Events, the lists they are in, and what an operation on one event does to the lists, to the
 number of memberships and to the timers of the common-timeout lists.
 */
module EventLists {
  import opened Wrappers

  // common is the common-timeout list the deadline belongs to, due says that the event is active
  // because of its timeout, and delay is the interval of a persistent timeout.
  datatype Event = Event(pri: nat, internal: bool, io: bool, persist: bool,
                         inserted: bool, active: bool, timeout: bool,
                         due: bool, deadline: int, common: Option<nat>, delay: Option<nat>)

  type Events = map<nat, Event>

  datatype Queue = Inserted | Active | Timeout

  function Has(e: Event, q: Queue): bool {
    match q
    case Inserted => e.inserted
    case Active => e.active
    case Timeout => e.timeout
  }

  function Mark(e: Event, q: Queue, on: bool): (r: Event)
    ensures Has(r, q) == on && forall q' :: q' != q ==> Has(r, q') == Has(e, q')
  {
    match q
    case Inserted => e.(inserted := on)
    case Active => e.(active := on)
    case Timeout => e.(timeout := on)
  }

  // ---- Lists of events ----

  ghost predicate NoDup(s: seq<nat>) {
    forall i, j :: 0 <= i < j < |s| ==> s[i] != s[j]
  }

  ghost predicate Lists(s: seq<nat>, members: set<nat>) {
    NoDup(s) && forall x :: x in s <==> x in members
  }

  lemma ListsInsert(s: seq<nat>, members: set<nat>, k: nat, id: nat)
    requires Lists(s, members) && k <= |s| && id !in members
    ensures Lists(s[..k] + [id] + s[k..], members + {id})
  {
    var t := s[..k] + [id] + s[k..];
    assert forall i :: 0 <= i < |t| ==> t[i] == if i < k then s[i] else if i == k then id else s[i - 1];
    assert forall x :: x in t <==> x in s || x == id by {
      forall x | x in s ensures x in t {
        var i :| 0 <= i < |s| && s[i] == x;
        assert t[if i < k then i else i + 1] == x;
      }
      assert t[k] == id;
    }
  }

  lemma ListsAppend(s: seq<nat>, members: set<nat>, id: nat)
    requires Lists(s, members) && id !in members
    ensures Lists(s + [id], members + {id})
  {
    ListsInsert(s, members, |s|, id);
    assert s[..|s|] + [id] + s[|s|..] == s + [id];
  }

  // TAILQ_REMOVE
  function Without(s: seq<nat>, id: nat): seq<nat> {
    if s == [] then [] else if s[0] == id then s[1..] else [s[0]] + Without(s[1..], id)
  }

  // The active queues without an event that was active, and with one that was not
  function Inactive(active: seq<seq<nat>>, e: Event, id: nat): seq<seq<nat>> {
    if e.active && e.pri < |active| then active[e.pri := Without(active[e.pri], id)] else active
  }

  function AtTail(active: seq<seq<nat>>, e: Event, id: nat): seq<seq<nat>> {
    if !e.active && e.pri < |active| then active[e.pri := active[e.pri] + [id]] else active
  }

  lemma AtTailIs(active: seq<seq<nat>>, e: Event, id: nat)
    requires e.pri < |active|
    ensures AtTail(active, e, id) == if e.active then active else active[e.pri := active[e.pri] + [id]]
  {
  }

  // Setting a timeout takes an event that is due off its queue.
  function Withdrawn(active: seq<seq<nat>>, e: Event, id: nat): seq<seq<nat>> {
    if e.due then Inactive(active, e, id) else active
  }

  // An event whose time has come goes to the tail, wherever it was.
  function Requeued(active: seq<seq<nat>>, e: Event, id: nat): seq<seq<nat>> {
    AtTail(Inactive(active, e, id), Cleared(e), id)
  }

  function RequeuedAll(active: seq<seq<nat>>, ev: Events, ids: seq<nat>): seq<seq<nat>> {
    if ids == [] then active
    else
      var id, before := ids[|ids| - 1], RequeuedAll(active, ev, ids[..|ids| - 1]);
      if id in ev then Requeued(before, ev[id], id) else before
  }

  // The timer that a new timeout has set: that of the list it is the first of
  function TimerSet(common: seq<seq<nat>>, c: Option<nat>, id: nat, timers: seq<nat>): Option<nat> {
    if c.Some? && c.value < |common| && c.value < |timers| && common[c.value] != [] && common[c.value][0] == id
    then Some(timers[c.value]) else None
  }

  // The active queues after a timeout was set for an event, and perhaps a timer with it
  function Retimed(active: seq<seq<nat>>, ev: Events, id: nat, timer: Option<nat>): seq<seq<nat>>
    requires id in ev
  {
    var a := Withdrawn(active, ev[id], id);
    if timer.Some? && timer.value in ev then Withdrawn(a, ev[timer.value], timer.value) else a
  }

  // Exactly the events that are due, the earliest first
  ghost predicate Fires(fired: seq<nat>, ev: Events, c: Option<nat>, now: int) {
    && Lists(fired, set id | id in ev && IsDue(ev[id], c, now))
    && (forall i :: 0 <= i < |fired| ==> fired[i] in ev)
    && forall i, j :: 0 <= i < j < |fired| ==> ev[fired[i]].deadline <= ev[fired[j]].deadline
  }

  lemma {:induction false} WithoutAt(s: seq<nat>, id: nat, k: nat)
    requires NoDup(s) && k < |s| && s[k] == id
    ensures Without(s, id) == s[..k] + s[k + 1..]
  {
    if k > 0 {
      WithoutAt(s[1..], id, k - 1);
      assert s[..k] + s[k + 1..] == [s[0]] + (s[1..][..k - 1] + s[1..][k..]);
    }
  }

  lemma ListsRemove(s: seq<nat>, members: set<nat>, id: nat)
    requires Lists(s, members) && id in members
    ensures Lists(Without(s, id), members - {id}) && |Without(s, id)| == |s| - 1
  {
    var k :| 0 <= k < |s| && s[k] == id;
    WithoutAt(s, id, k);
    CutOut(s, k);
  }

  lemma CutOut(s: seq<nat>, k: nat)
    requires NoDup(s) && k < |s|
    ensures var t := s[..k] + s[k + 1..]; NoDup(t) && forall x :: x in t <==> x in s && x != s[k]
  {
    var t := s[..k] + s[k + 1..];
    assert forall i :: 0 <= i < |t| ==> t[i] == if i < k then s[i] else s[i + 1];
    forall x | x in s && x != s[k] ensures x in t {
      var i :| 0 <= i < |s| && s[i] == x;
      assert t[if i < k then i else i - 1] == x;
    }
    forall x | x in t ensures x in s && x != s[k] {
      var i :| 0 <= i < |t| && t[i] == x;
      assert s[if i < k then i else i + 1] == x;
    }
  }

  // The members of a list that are in a set, in their order
  function Only(s: seq<nat>, keep: set<nat>): seq<nat> {
    if s == [] then [] else (if s[0] in keep then [s[0]] else []) + Only(s[1..], keep)
  }

  lemma {:induction false} OnlySame(s: seq<nat>, a: set<nat>, b: set<nat>)
    requires forall x :: x in s ==> (x in a <==> x in b)
    ensures Only(s, a) == Only(s, b)
  {
    if s != [] {
      OnlySame(s[1..], a, b);
    }
  }

  lemma {:induction false} OnlySnoc(s: seq<nat>, id: nat, keep: set<nat>)
    ensures Only(s + [id], keep) == Only(s, keep) + if id in keep then [id] else []
  {
    if s == [] {
      assert s + [id] == [id] && [id][1..] == [];
    } else {
      assert (s + [id])[1..] == s[1..] + [id];
      OnlySnoc(s[1..], id, keep);
    }
  }

  lemma {:induction false} OnlyIn(s: seq<nat>, keep: set<nat>, x: nat)
    requires x in Only(s, keep)
    ensures x in s && x in keep
  {
    if x !in Only(s[1..], keep) {
      assert x == s[0];
    } else {
      OnlyIn(s[1..], keep, x);
    }
  }

  lemma {:induction false} WithoutOnly(s: seq<nat>, keep: set<nat>, id: nat)
    requires NoDup(s)
    ensures Without(Only(s, keep), id) == Only(s, keep - {id})
  {
    if s != [] {
      var rest := Only(s[1..], keep);
      if s[0] == id && id in keep {
        assert Only(s, keep) == [id] + rest && ([id] + rest)[1..] == rest;
        OnlySame(s[1..], keep, keep - {id});
      } else {
        WithoutOnly(s[1..], keep, id);
        if s[0] in keep {
          assert Only(s, keep) == [s[0]] + rest && ([s[0]] + rest)[1..] == rest;
        } else {
          assert Only(s, keep) == rest && Only(s, keep - {id}) == Only(s[1..], keep - {id});
        }
      }
    }
  }

  lemma {:induction false} WithoutFirst(s: seq<nat>, t: seq<nat>, id: nat)
    requires id !in t
    ensures Without(s + t, id) == Without(s, id) + t
  {
    if s == [] {
      assert s + t == t;
      WithoutNone(t, id);
    } else {
      assert (s + t)[1..] == s[1..] + t;
      WithoutFirst(s[1..], t, id);
    }
  }

  lemma {:induction false} WithoutNone(s: seq<nat>, id: nat)
    requires id !in s
    ensures Without(s, id) == s
  {
    if s != [] {
      WithoutNone(s[1..], id);
    }
  }

  // ---- Which events belong where ----

  ghost function InsertedSet(ev: Events): set<nat> {
    set id | id in ev && ev[id].inserted
  }

  ghost function ActiveSet(ev: Events, p: nat): set<nat> {
    set id | id in ev && ev[id].active && ev[id].pri == p
  }

  // The heap for None, a common-timeout list otherwise
  ghost function TimeoutSet(ev: Events, c: Option<nat>): set<nat> {
    set id | id in ev && ev[id].timeout && ev[id].common == c
  }

  // The memberships that are counted
  ghost function UserSet(ev: Events, q: Queue): set<nat> {
    set id | id in ev && Has(ev[id], q) && !ev[id].internal
  }

  ghost function Memberships(ev: Events): nat {
    |UserSet(ev, Inserted)| + |UserSet(ev, Active)| + |UserSet(ev, Timeout)|
  }

  function SumLen(qs: seq<seq<nat>>): nat {
    if qs == [] then 0 else |qs[0]| + SumLen(qs[1..])
  }

  lemma {:induction false} SumLenUpdate(qs: seq<seq<nat>>, i: nat, q: seq<nat>)
    requires i < |qs|
    ensures SumLen(qs[i := q]) == SumLen(qs) - |qs[i]| + |q|
  {
    var qs' := qs[i := q];
    if i == 0 {
      assert qs'[1..] == qs[1..];
    } else {
      SumLenUpdate(qs[1..], i - 1, q);
      assert qs'[1..] == qs[1..][i - 1 := q];
    }
  }

  // The sets when one flag of one event changes
  ghost function Change(s: set<nat>, id: nat, on: bool): set<nat> {
    if on then s + {id} else s - {id}
  }

  lemma MarkInserted(ev: Events, id: nat, on: bool)
    requires id in ev && ev[id].inserted != on
    ensures var ev' := ev[id := Mark(ev[id], Inserted, on)];
      && InsertedSet(ev') == Change(InsertedSet(ev), id, on)
      && (forall p :: ActiveSet(ev', p) == ActiveSet(ev, p)) && (forall c :: TimeoutSet(ev', c) == TimeoutSet(ev, c))
  {
  }

  lemma MarkActive(ev: Events, id: nat, on: bool)
    requires id in ev && ev[id].active != on
    ensures var ev' := ev[id := Mark(ev[id], Active, on)];
      && InsertedSet(ev') == InsertedSet(ev)
      && (forall p ::
            ActiveSet(ev', p) == if p == ev[id].pri then Change(ActiveSet(ev, p), id, on) else ActiveSet(ev, p))
      && (forall c :: TimeoutSet(ev', c) == TimeoutSet(ev, c))
  {
  }

  lemma MarkTimeout(ev: Events, id: nat, on: bool)
    requires id in ev && ev[id].timeout != on
    ensures var ev' := ev[id := Mark(ev[id], Timeout, on)];
      && InsertedSet(ev') == InsertedSet(ev) && (forall p :: ActiveSet(ev', p) == ActiveSet(ev, p))
      && (forall c ::
            TimeoutSet(ev', c) == if c == ev[id].common then Change(TimeoutSet(ev, c), id, on) else TimeoutSet(ev, c))
  {
  }

  lemma CardChange(s: set<nat>, id: nat, on: bool)
    requires (id in s) != on
    ensures |Change(s, id, on)| == |s| + if on then 1 else -1
  {
  }

  lemma MarkMemberships(ev: Events, id: nat, q: Queue, on: bool)
    requires id in ev && Has(ev[id], q) != on
    ensures var ev' := ev[id := Mark(ev[id], q, on)];
      Memberships(ev') == Memberships(ev) + if ev[id].internal then 0 else if on then 1 else -1
  {
    hide UserSet, Mark, Change;
    UserSetChange(ev, id, q, on);
    match q
    case Inserted => {
      UserSetSame(ev, id, q, Active, on);
      UserSetSame(ev, id, q, Timeout, on);
    }
    case Active => {
      UserSetSame(ev, id, q, Inserted, on);
      UserSetSame(ev, id, q, Timeout, on);
    }
    case Timeout => {
      UserSetSame(ev, id, q, Inserted, on);
      UserSetSame(ev, id, q, Active, on);
    }
  }

  lemma UserSetSame(ev: Events, id: nat, q: Queue, q': Queue, on: bool)
    requires id in ev && q != q'
    ensures UserSet(ev[id := Mark(ev[id], q, on)], q') == UserSet(ev, q')
  {
  }

  lemma UserSetChange(ev: Events, id: nat, q: Queue, on: bool)
    requires id in ev && Has(ev[id], q) != on
    ensures |UserSet(ev[id := Mark(ev[id], q, on)], q)| == |UserSet(ev, q)| + if ev[id].internal then 0
                                                                              else if on then 1 else -1
  {
    if ev[id].internal {
      UserSetInternal(ev, id, q, on);
    } else {
      UserSetUser(ev, id, q, on);
      hide UserSet, Mark;
      CardChange(UserSet(ev, q), id, on);
    }
  }

  lemma UserSetInternal(ev: Events, id: nat, q: Queue, on: bool)
    requires id in ev && ev[id].internal
    ensures UserSet(ev[id := Mark(ev[id], q, on)], q) == UserSet(ev, q)
  {
  }

  lemma UserSetUser(ev: Events, id: nat, q: Queue, on: bool)
    requires id in ev && Has(ev[id], q) != on && !ev[id].internal
    ensures UserSet(ev[id := Mark(ev[id], q, on)], q) == Change(UserSet(ev, q), id, on)
            && ((id in UserSet(ev, q)) != on)
  {
  }

  // ---- The queues agree with the flags ----

  datatype Queues = Queues(inserted: seq<nat>, active: seq<seq<nat>>, heap: seq<nat>, common: seq<seq<nat>>)

  ghost predicate Agree(ev: Events, qs: Queues) {
    && Lists(qs.inserted, InsertedSet(ev)) && Lists(qs.heap, TimeoutSet(ev, None))
    && (forall p :: 0 <= p < |qs.active| ==> Lists(qs.active[p], ActiveSet(ev, p)))
    && (forall i :: 0 <= i < |qs.common| ==> Lists(qs.common[i], TimeoutSet(ev, Some(i))))
  }

  // Priorities and list numbers are in range.
  ghost predicate InRange(ev: Events, qs: Queues) {
    forall id :: id in ev ==> ev[id].pri < |qs.active| && (ev[id].common.Some? ==> ev[id].common.value < |qs.common|)
  }

  function TimeoutList(qs: Queues, c: Option<nat>): seq<nat>
    requires c.Some? ==> c.value < |qs.common|
  {
    if c.Some? then qs.common[c.value] else qs.heap
  }

  function SetTimeoutList(qs: Queues, c: Option<nat>, l: seq<nat>): (qs': Queues)
    requires c.Some? ==> c.value < |qs.common|
    ensures |qs'.common| == |qs.common| && TimeoutList(qs', c) == l && qs'.active == qs.active
            && qs'.inserted == qs.inserted
    ensures forall c' ::
              c' != c && (c'.Some? ==> c'.value < |qs.common|) ==> TimeoutList(qs', c') == TimeoutList(qs, c')
  {
    if c.Some? then qs.(common := qs.common[c.value := l]) else qs.(heap := l)
  }

  lemma AgreeInserted(ev: Events, qs: Queues, id: nat, on: bool)
    requires Agree(ev, qs) && id in ev && ev[id].inserted != on
    ensures Agree(ev[id := Mark(ev[id], Inserted, on)],
                  qs.(inserted := if on then qs.inserted + [id] else Without(qs.inserted, id)))
  {
    MarkInserted(ev, id, on);
    assert id in InsertedSet(ev) <==> !on;
    if on {
      ListsAppend(qs.inserted, InsertedSet(ev), id);
    } else {
      ListsRemove(qs.inserted, InsertedSet(ev), id);
    }
    hide Lists, InsertedSet, ActiveSet, TimeoutSet, Without, Mark;
  }

  lemma AgreeActive(ev: Events, qs: Queues, id: nat, on: bool)
    requires Agree(ev, qs) && InRange(ev, qs) && id in ev && ev[id].active != on
    ensures var p := ev[id].pri;
      var q := if on then qs.active[p] + [id] else Without(qs.active[p], id);
      && Agree(ev[id := Mark(ev[id], Active, on)], qs.(active := qs.active[p := q]))
      && SumLen(qs.active[p := q]) == SumLen(qs.active) + if on then 1 else -1
  {
    var p := ev[id].pri;
    var q := if on then qs.active[p] + [id] else Without(qs.active[p], id);
    MarkActive(ev, id, on);
    assert id in ActiveSet(ev, p) <==> !on;
    if on {
      ListsAppend(qs.active[p], ActiveSet(ev, p), id);
    } else {
      ListsRemove(qs.active[p], ActiveSet(ev, p), id);
    }
    hide Lists, InsertedSet, ActiveSet, TimeoutSet, Without, Mark;
    SumLenUpdate(qs.active, p, q);
  }

  lemma AgreeTimeout(ev: Events, qs: Queues, id: nat, on: bool, l: seq<nat>)
    requires Agree(ev, qs) && InRange(ev, qs) && id in ev && ev[id].timeout != on
    requires Lists(l, Change(TimeoutSet(ev, ev[id].common), id, on))
    ensures Agree(ev[id := Mark(ev[id], Timeout, on)], SetTimeoutList(qs, ev[id].common, l))
  {
    MarkTimeout(ev, id, on);
    hide Lists, InsertedSet, ActiveSet, TimeoutSet, Change, Mark;
    var ev', qs' := ev[id := Mark(ev[id], Timeout, on)], SetTimeoutList(qs, ev[id].common, l);
    forall i | 0 <= i < |qs'.common| ensures Lists(qs'.common[i], TimeoutSet(ev', Some(i))) {
      assert TimeoutList(qs', Some(i)) == qs'.common[i];
      assert TimeoutList(qs, Some(i)) == qs.common[i];
    }
    assert TimeoutList(qs', None) == qs'.heap && TimeoutList(qs, None) == qs.heap;
  }

  // A deadline is set while the event is in no timeout queue.
  lemma AgreeDeadline(ev: Events, qs: Queues, id: nat, e: Event)
    requires Agree(ev, qs) && id in ev && OtherFields(ev[id], e)
    ensures Agree(ev[id := e], qs) && Memberships(ev[id := e]) == Memberships(ev)
  {
    var ev' := ev[id := e];
    assert InsertedSet(ev') == InsertedSet(ev);
    assert forall p :: ActiveSet(ev', p) == ActiveSet(ev, p);
    assert forall c :: TimeoutSet(ev', c) == TimeoutSet(ev, c);
    assert forall q :: UserSet(ev', q) == UserSet(ev, q);
  }

  // A change that is no matter of queues: a deadline only while there is no timeout pending
  predicate OtherFields(e: Event, e': Event) {
    && e' == e.(deadline := e'.deadline, common := e'.common, delay := e'.delay, due := e'.due)
    && (e.timeout ==> e'.deadline == e.deadline && e'.common == e.common)
  }

  // ---- Order of a common-timeout list ----

  ghost predicate Sorted(ev: Events, l: seq<nat>) {
    && (forall i :: 0 <= i < |l| ==> l[i] in ev)
    && forall i, j :: 0 <= i < j < |l| ==> ev[l[i]].deadline <= ev[l[j]].deadline
  }

  /** insert_common_timeout_inorder looks for the place from the end. */
  method InsertInOrder(ev: Events, l: seq<nat>, id: nat) returns (l': seq<nat>, ghost at: nat)
    requires Sorted(ev, l) && id in ev
    ensures Sorted(ev, l') && InsertedAt(l, l', id, at)
    ensures forall i :: at <= i < |l| ==> ev[id].deadline < ev[l[i]].deadline
  {
    var k := |l|;
    while k > 0 && ev[id].deadline < ev[l[k - 1]].deadline
      invariant 0 <= k <= |l| && forall i :: k <= i < |l| ==> ev[id].deadline < ev[l[i]].deadline
    {
      k := k - 1;
    }
    SortedInsert(ev, l, k, id);
    l', at := l[..k] + [id] + l[k..], k;
  }

  lemma SortedInsert(ev: Events, l: seq<nat>, k: nat, id: nat)
    requires Sorted(ev, l) && k <= |l| && id in ev
    requires (forall i :: 0 <= i < k ==> ev[l[i]].deadline <= ev[id].deadline)
             && (forall i :: k <= i < |l| ==> ev[id].deadline < ev[l[i]].deadline)
    ensures Sorted(ev, l[..k] + [id] + l[k..])
  {
    var t := l[..k] + [id] + l[k..];
    assert forall i :: 0 <= i < |t| ==> t[i] == if i < k then l[i] else if i == k then id else l[i - 1];
  }

  lemma SortedWithout(ev: Events, l: seq<nat>, id: nat)
    requires Sorted(ev, l) && NoDup(l) && id in l
    ensures Sorted(ev, Without(l, id))
    ensures Without(l, id) != [] ==> ev[l[0]].deadline <= ev[Without(l, id)[0]].deadline
  {
    var k :| 0 <= k < |l| && l[k] == id;
    WithoutAt(l, id, k);
    hide Without;
    SortedCut(ev, l, k);
  }

  lemma SortedCut(ev: Events, l: seq<nat>, k: nat)
    requires Sorted(ev, l) && k < |l|
    ensures var t := l[..k] + l[k + 1..]; Sorted(ev, t) && (t != [] ==> ev[l[0]].deadline <= ev[t[0]].deadline)
  {
    var t := l[..k] + l[k + 1..];
    assert forall i :: 0 <= i < |t| ==> t[i] == if i < k then l[i] else l[i + 1];
  }

  // Events of a list that keep their deadlines
  lemma SortedSame(ev: Events, ev': Events, l: seq<nat>)
    requires Sorted(ev, l) && forall i :: 0 <= i < |l| ==> l[i] in ev' && ev'[l[i]].deadline == ev[l[i]].deadline
    ensures Sorted(ev', l)
  {
  }

  ghost predicate AllSorted(ev: Events, common: seq<seq<nat>>) {
    forall i :: 0 <= i < |common| ==> Sorted(ev, common[i])
  }

  // What stays as it is when flags of one event change
  ghost predicate SameElsewhere(ev: Events, ev': Events, id: nat) {
    ev'.Keys == ev.Keys && forall x :: x in ev && x != id ==> ev'[x] == ev[x]
  }

  lemma AllSortedSame(ev: Events, ev': Events, common: seq<seq<nat>>, id: nat)
    requires AllSorted(ev, common) && id in ev && SameElsewhere(ev, ev', id)
    requires ev'[id].deadline == ev[id].deadline || forall i :: 0 <= i < |common| ==> id !in common[i]
    ensures AllSorted(ev', common)
  {
    forall i | 0 <= i < |common| ensures Sorted(ev', common[i]) {
      SortedSame(ev, ev', common[i]);
    }
  }

  function EmptyQueues(n: nat): seq<seq<nat>> {
    seq(n, _ => [])
  }

  lemma {:induction false} SumLenEmpty(n: nat)
    ensures SumLen(EmptyQueues(n)) == 0
  {
    if n > 0 {
      SumLenEmpty(n - 1);
      assert EmptyQueues(n)[1..] == EmptyQueues(n - 1);
    }
  }

  function NewEvent(pri: nat, internal: bool, io: bool, persist: bool): Event {
    Event(pri, internal, io, persist, false, false, false, false, 0, None, None)
  }

  // A new event, and perhaps a new list that is empty
  lemma AddedAgree(ev: Events, qs: Queues, id: nat, e: Event, common: seq<seq<nat>>)
    requires Agree(ev, qs) && InRange(ev, qs) && AllSorted(ev, qs.common) && id !in ev && e.pri < |qs.active|
    requires !e.inserted && !e.active && !e.timeout && e.common.None?
             && (common == qs.common || common == qs.common + [[]])
    ensures var ev', qs' := ev[id := e], qs.(common := common);
      Agree(ev', qs') && InRange(ev', qs') && AllSorted(ev', common) && Memberships(ev') == Memberships(ev)
  {
    var ev' := ev[id := e];
    assert InsertedSet(ev') == InsertedSet(ev);
    assert forall p :: ActiveSet(ev', p) == ActiveSet(ev, p);
    assert forall c :: TimeoutSet(ev', c) == TimeoutSet(ev, c);
    assert forall q :: UserSet(ev', q) == UserSet(ev, q);
    assert TimeoutSet(ev, Some(|qs.common|)) == {};
    forall i | 0 <= i < |common| ensures Sorted(ev', common[i]) {
      if i < |qs.common| {
        AllSortedAt(ev, qs.common, i);
        SortedSame(ev, ev', common[i]);
      }
    }
  }

  lemma AddedTimely(ev: Events, c: seq<seq<nat>>, timers: seq<nat>, running: Option<nat>, id: nat, e: Event)
    requires AllTimely(ev, c, timers, running) && TimersOk(ev, |c|, timers) && id !in ev
    ensures AllTimely(ev[id := e], c, timers, running) && TimersOk(ev[id := e], |c|, timers) && id !in timers
  {
    forall i | 0 <= i < |c| ensures Timely(ev[id := e], c[i], timers[i], running) {
      assert Timely(ev, c[i], timers[i], running);
    }
  }

  lemma TimerAdded(ev: Events, c: seq<seq<nat>>, timers: seq<nat>, running: Option<nat>, t: nat)
    requires AllTimely(ev, c, timers, running) && TimersOk(ev, |c|, timers) && t in ev && IsTimer(ev[t]) && t !in timers
    ensures AllTimely(ev, c + [[]], timers + [t], running) && TimersOk(ev, |c| + 1, timers + [t])
  {
  }

  lemma ActiveMember(ev: Events, qs: Queues, p: nat)
    requires Agree(ev, qs) && p < |qs.active| && qs.active[p] != []
    ensures var id := qs.active[p][0];
      && id in ev && ev[id].active && ev[id].pri == p && Without(qs.active[p], id) == qs.active[p][1..]
      && Inactive(qs.active, ev[id], id) == qs.active[p := qs.active[p][1..]]
  {
    assert Lists(qs.active[p], ActiveSet(ev, p));
    assert qs.active[p][0] in qs.active[p];
  }

  lemma TimersPlain(ev: Events, n: nat, timers: seq<nat>, id: nat)
    requires TimersOk(ev, n, timers) && id in ev && ev[id].persist
    ensures id !in timers
  {
  }

  // The callback of a timer is about to run.
  lemma TimerRuns(ev: Events, c: seq<seq<nat>>, ev': Events, c': seq<seq<nat>>, timers: seq<nat>, id: nat)
    requires AllTimely(ev, c, timers, None) && TimersOk(ev, |c|, timers) && id in ev && id in timers
    requires ev' == ev[id := Cleared(ev[id])] && HeadsLater(ev, c, ev', c', id) && InNone(c', id)
    ensures AllTimely(ev', c', timers, Some(id)) && TimersOk(ev', |c'|, timers)
  {
    forall i | 0 <= i < |c'| ensures Timely(ev', c'[i], timers[i], Some(id)) {
      assert Timely(ev, c[i], timers[i], None) && HeadLater(ev, c[i], ev', c'[i], id);
      assert c'[i] != [] ==> c'[i][0] in c'[i];
    }
  }

  lemma RunningKeeps(ev: Events, c: seq<seq<nat>>, timers: seq<nat>, id: nat)
    ensures AllTimely(ev, c, timers, None) ==> AllTimely(ev, c, timers, Some(id))
  {
    if AllTimely(ev, c, timers, None) {
      forall i | 0 <= i < |c| ensures Timely(ev, c[i], timers[i], Some(id)) {
        assert Timely(ev, c[i], timers[i], None);
      }
    }
  }

  function Shift(e: Event, off: nat): Event {
    if e.timeout then e.(deadline := e.deadline - off) else e
  }

  function Shifted(ev: Events, off: nat): Events {
    map id | id in ev :: Shift(ev[id], off)
  }

  lemma ShiftedAgree(ev: Events, qs: Queues, off: nat)
    requires Agree(ev, qs) && AllSorted(ev, qs.common) && InRange(ev, qs)
    ensures var ev' := Shifted(ev, off);
              Agree(ev', qs) && AllSorted(ev', qs.common) && InRange(ev', qs) && Memberships(ev') == Memberships(ev)
  {
    var ev' := Shifted(ev, off);
    assert InsertedSet(ev') == InsertedSet(ev);
    assert forall p :: ActiveSet(ev', p) == ActiveSet(ev, p);
    assert forall c :: TimeoutSet(ev', c) == TimeoutSet(ev, c);
    assert forall q :: UserSet(ev', q) == UserSet(ev, q);
    forall i | 0 <= i < |qs.common| ensures Sorted(ev', qs.common[i]) {
      AllSortedAt(ev, qs.common, i);
      forall j | 0 <= j < |qs.common[i]| ensures ev[qs.common[i][j]].timeout {
        MemberOf(ev, qs, i, j);
      }
    }
  }

  lemma ShiftedTimely(ev: Events, c: seq<seq<nat>>, timers: seq<nat>, running: Option<nat>, off: nat)
    requires AllTimely(ev, c, timers, running) && TimersOk(ev, |c|, timers)
    requires forall i :: 0 <= i < |c| && c[i] != [] ==> c[i][0] in ev && ev[c[i][0]].timeout
    ensures AllTimely(Shifted(ev, off), c, timers, running) && TimersOk(Shifted(ev, off), |c|, timers)
  {
    var ev' := Shifted(ev, off);
    forall i | 0 <= i < |c| ensures Timely(ev', c[i], timers[i], running) {
      assert Timely(ev, c[i], timers[i], running);
    }
  }

  lemma HeapIs(ev: Events, qs: Queues)
    requires Agree(ev, qs)
    ensures forall id :: id in qs.heap <==> id in ev && ev[id].timeout && ev[id].common.None?
  {
    assert forall id :: id in TimeoutSet(ev, None) <==> id in ev && ev[id].timeout && ev[id].common == None;
  }

  predicate IsDue(e: Event, c: Option<nat>, now: int) {
    e.timeout && e.common == c && e.deadline <= now
  }

  ghost function Timeouts(ev: Events): set<nat> {
    set id | id in ev && ev[id].timeout
  }

  // Some of the events that are due have been made active, and nothing else.
  ghost predicate Progress(ev0: Events, ev: Events, c: Option<nat>, now: int) {
    && ev.Keys == ev0.Keys
    && forall id :: id in ev0 ==> ev[id] == ev0[id] || (IsDue(ev0[id], c, now) && ev[id] == Expired(ev0[id]))
  }

  lemma ProgressNext(ev0: Events, ev: Events, c: Option<nat>, now: int, id: nat)
    requires Progress(ev0, ev, c, now) && id in ev && IsDue(ev[id], c, now)
    ensures Progress(ev0, ev[id := Expired(ev[id])], c, now) && Timeouts(ev[id := Expired(ev[id])]) < Timeouts(ev)
  {
    assert id in Timeouts(ev) && id !in Timeouts(ev[id := Expired(ev[id])]);
  }

  // In `fired` are those that have been made active, the earliest first, and the queues are as after that.
  ghost predicate Firing(ev0: Events, ev: Events, c: Option<nat>, now: int, fired: seq<nat>) {
    && Progress(ev0, ev, c, now) && NoDup(fired)
    && (forall i :: 0 <= i < |fired| ==>
          fired[i] in ev0 && IsDue(ev0[fired[i]], c, now) && ev[fired[i]] == Expired(ev0[fired[i]]))
    && (forall id :: id in ev0 && id !in fired ==> ev[id] == ev0[id])
    && (forall i, j :: 0 <= i < j < |fired| ==> ev0[fired[i]].deadline <= ev0[fired[j]].deadline)
    && forall i, id :: 0 <= i < |fired| && id in ev && ev[id].timeout && ev[id].common == c ==>
         ev0[fired[i]].deadline <= ev[id].deadline
  }

  lemma FiringStart(ev: Events, c: Option<nat>, now: int)
    ensures Firing(ev, ev, c, now, [])
  {
  }

  ghost predicate Earliest(ev: Events, c: Option<nat>, id: nat) {
    id in ev && forall x :: x in ev && ev[x].timeout && ev[x].common == c ==> ev[id].deadline <= ev[x].deadline
  }

  lemma FiringNext(ev0: Events, ev: Events, c: Option<nat>, now: int, fired: seq<nat>, id: nat)
    requires Firing(ev0, ev, c, now, fired) && Earliest(ev, c, id) && IsDue(ev[id], c, now)
    ensures Firing(ev0, ev[id := Expired(ev[id])], c, now, fired + [id]) && ev[id] == ev0[id]
  {
    assert id !in fired;
    ProgressNext(ev0, ev, c, now, id);
    var ev', fired' := ev[id := Expired(ev[id])], fired + [id];
    assert forall i :: 0 <= i < |fired| ==> fired'[i] == fired[i];
    assert forall x :: x in fired' <==> x in fired || x == id;
  }

  lemma RequeuedNext(active: seq<seq<nat>>, ev: Events, ids: seq<nat>, id: nat)
    requires id in ev
    ensures RequeuedAll(active, ev, ids + [id]) == Requeued(RequeuedAll(active, ev, ids), ev[id], id)
  {
    assert (ids + [id])[..|ids|] == ids;
  }

  ghost function Elements(ids: seq<nat>): set<nat> {
    set id | id in ids
  }

  ghost function OfPriority(ev: Events, p: nat): set<nat> {
    set id | id in ev && ev[id].pri == p
  }

  /** In every queue those that did not fire come first, as they were, and behind them those that did, as they fired. */
  ghost predicate QueuedBehind(active: seq<seq<nat>>, active': seq<seq<nat>>, ev: Events, fired: seq<nat>) {
    && |active'| == |active|
    && forall p :: 0 <= p < |active| ==>
         active'[p] == Only(active[p], ActiveSet(ev, p) - Elements(fired)) + Only(fired, OfPriority(ev, p))
  }

  lemma {:induction false} RequeuedAllIs(active: seq<seq<nat>>, ev: Events, ids: seq<nat>)
    requires NoDup(ids) && forall i :: 0 <= i < |ids| ==> ids[i] in ev
    requires forall p :: 0 <= p < |active| ==> Lists(active[p], ActiveSet(ev, p))
    ensures QueuedBehind(active, RequeuedAll(active, ev, ids), ev, ids)
  {
    if ids == [] {
      forall p | 0 <= p < |active|
        ensures active[p] == Only(active[p], ActiveSet(ev, p) - Elements(ids)) + Only(ids, OfPriority(ev, p)) {
        assert ActiveSet(ev, p) - Elements(ids) == ActiveSet(ev, p);
        assert Lists(active[p], ActiveSet(ev, p));
        OnlyAll(active[p], ActiveSet(ev, p));
      }
    } else {
      var n := |ids| - 1;
      RequeuedAllIs(active, ev, ids[..n]);
      assert ids[..n] + [ids[n]] == ids;
      RequeuedNext(active, ev, ids[..n], ids[n]);
      QueuedNext(active, RequeuedAll(active, ev, ids[..n]), ev, ids[..n], ids[n]);
    }
  }

  lemma {:induction false} OnlyAll(s: seq<nat>, keep: set<nat>)
    requires forall x :: x in s ==> x in keep
    ensures Only(s, keep) == s
  {
    if s != [] {
      OnlyAll(s[1..], keep);
    }
  }

  // One more event has fired.
  lemma QueuedNext(active: seq<seq<nat>>, active': seq<seq<nat>>, ev: Events, ids: seq<nat>, id: nat)
    requires QueuedBehind(active, active', ev, ids) && id in ev && id !in ids
    requires forall p :: 0 <= p < |active| ==> Lists(active[p], ActiveSet(ev, p))
    ensures QueuedBehind(active, Requeued(active', ev[id], id), ev, ids + [id])
  {
    var active2 := Requeued(active', ev[id], id);
    forall p | 0 <= p < |active|
      ensures active2[p] ==
              Only(active[p], ActiveSet(ev, p) - Elements(ids + [id])) + Only(ids + [id], OfPriority(ev, p)) {
      assert Lists(active[p], ActiveSet(ev, p));
      QueuedOne(active[p], active'[p], ev, p, ids, id);
    }
  }

  lemma QueuedOne(q: seq<nat>, q': seq<nat>, ev: Events, p: nat, ids: seq<nat>, id: nat)
    requires Lists(q, ActiveSet(ev, p)) && id in ev && id !in ids
    requires q' == Only(q, ActiveSet(ev, p) - Elements(ids)) + Only(ids, OfPriority(ev, p))
    ensures var q1 := if ev[id].pri != p then q' else (if ev[id].active then Without(q', id) else q') + [id];
      q1 == Only(q, ActiveSet(ev, p) - Elements(ids + [id])) + Only(ids + [id], OfPriority(ev, p))
  {
    var left, fired := ActiveSet(ev, p) - Elements(ids), Only(ids, OfPriority(ev, p));
    assert ActiveSet(ev, p) - Elements(ids + [id]) == left - {id};
    OnlySnoc(ids, id, OfPriority(ev, p));
    if ev[id].pri == p && ev[id].active {
      if id in fired {
        OnlyIn(ids, OfPriority(ev, p), id);
      }
      WithoutFirst(Only(q, left), fired, id);
      WithoutOnly(q, left, id);
    } else {
      OnlySame(q, left, left - {id});
    }
  }

  lemma FiredQueue(ev: Events, qs: Queues, fired: seq<nat>, c: Option<nat>, now: int)
    requires Agree(ev, qs) && Fires(fired, ev, c, now)
    ensures QueuedBehind(qs.active, RequeuedAll(qs.active, ev, fired), ev, fired)
  {
    RequeuedAllIs(qs.active, ev, fired);
  }

  lemma FiringOver(ev0: Events, ev: Events, c: Option<nat>, now: int, fired: seq<nat>)
    requires Firing(ev0, ev, c, now, fired)
    requires forall id :: id in ev && ev[id].timeout && ev[id].common == c ==> ev[id].deadline > now
    ensures Fires(fired, ev0, c, now)
  {
    assert forall id :: id in ev0 && id !in fired ==> !IsDue(ev0[id], c, now);
  }

  lemma QueuesStart(active: seq<seq<nat>>, ev: Events)
    ensures active == RequeuedAll(active, ev, [])
  {
  }

  lemma TopIsEarliest(ev: Events, id: nat)
    requires id in ev && forall x ::
               x in ev && ev[x].timeout && ev[x].common.None? ==> ev[id].deadline <= ev[x].deadline
    ensures Earliest(ev, None, id)
  {
  }

  // One more event has been made active.
  lemma FiringStep(ev0: Events, ev: Events, c: Option<nat>, now: int, fired: seq<nat>, id: nat, active: seq<seq<nat>>)
    requires Firing(ev0, ev, c, now, fired) && Earliest(ev, c, id) && id in ev && IsDue(ev[id], c, now)
    ensures var ev' := ev[id := Expired(ev[id])];
      && Firing(ev0, ev', c, now, fired + [id]) && Timeouts(ev') < Timeouts(ev)
      && RequeuedAll(active, ev0, fired + [id]) == Requeued(RequeuedAll(active, ev0, fired), ev[id], id)
  {
    assert Progress(ev0, ev, c, now);
    FiringNext(ev0, ev, c, now, fired, id);
    hide Firing, RequeuedAll, Requeued;
    ProgressNext(ev0, ev, c, now, id);
    RequeuedNext(active, ev0, fired, id);
  }

  lemma FiringDone(ev0: Events, ev: Events, c: Option<nat>, now: int, fired: seq<nat>)
    requires Firing(ev0, ev, c, now, fired)
    requires forall id :: id in ev && ev[id].timeout && ev[id].common == c ==> ev[id].deadline > now
    ensures Fires(fired, ev0, c, now) && Progress(ev0, ev, c, now)
    ensures forall id :: id in ev ==> ev[id] == if IsDue(ev0[id], c, now) then Expired(ev0[id]) else ev0[id]
  {
    FiringOver(ev0, ev, c, now, fired);
  }

  // The timer of the list is no event of a list.
  lemma TimerNotDue(ev0: Events, ev: Events, k: nat, now: int, fired: seq<nat>, t: nat)
    requires Firing(ev0, ev, Some(k), now, fired) && t in ev0 && IsTimer(ev0[t])
    ensures ev.Keys == ev0.Keys && ev[t] == ev0[t]
  {
  }

  // Being put on a descriptor changes no queue of active events.
  lemma RetimedIo(active: seq<seq<nat>>, ev: Events, id: nat, timer: Option<nat>)
    requires id in ev
    ensures Retimed(active, ev[id := WithIo(ev[id])], id, timer) == Retimed(active, ev, id, timer)
  {
  }

  lemma TimersSize(ev: Events, common: seq<seq<nat>>, timers: seq<nat>, running: Option<nat>)
    requires AllTimely(ev, common, timers, running)
    ensures |timers| == |common|
  {
  }

  lemma TimelyWeaker(ev: Events, common: seq<seq<nat>>, timers: seq<nat>, running: Option<nat>, id: nat)
    requires AllTimely(ev, common, timers, running)
    ensures TimelyBut(ev, common, timers, running, id)
  {
  }

  // The callback of a timer returns: its list is empty, or the timer is pending again.
  lemma CallbackOver(ev: Events, common: seq<seq<nat>>, timers: seq<nat>, k: nat)
    requires k < |timers| && TimersOk(ev, |common|, timers) && AllTimely(ev, common, timers, Some(timers[k]))
             && Timely(ev, common[k], timers[k], None)
    ensures AllTimely(ev, common, timers, None)
  {
    forall i | 0 <= i < |common| ensures Timely(ev, common[i], timers[i], None) {
      assert Timely(ev, common[i], timers[i], Some(timers[k]));
    }
  }

  // An event on a descriptor is handed to the backend unless it is there already, or active.
  predicate NeedsIo(e: Event) {
    e.io && !e.inserted && !e.active
  }

  function WithIo(e: Event): Event {
    e.(inserted := e.inserted || NeedsIo(e))
  }

  /** A persistent timeout stays on its beat unless a beat has been missed. */
  function RunAt(e: Event, now: int): (r: int)
    requires e.delay.Some?
    ensures now <= r && (r == now + e.delay.value || (e.due && r == e.deadline + e.delay.value))
    ensures e.due && e.deadline + e.delay.value >= now ==> r == e.deadline + e.delay.value
  {
    var next := e.deadline + e.delay.value;
    if e.due && next >= now then next else now + e.delay.value
  }

  // A relative timeout
  datatype Interval = Interval(length: nat, common: Option<nat>)

  // What no operation on the queues touches, and whether the event is active because of its timeout
  predicate SameKind(e: Event, e': Event) {
    e'.pri == e.pri && e'.internal == e.internal && e'.io == e.io && e'.persist == e.persist && e'.due == e.due
  }

  // A timer that was set: it is pending, and no longer active if it was because of its timeout.
  predicate Rescheduled(e: Event, e': Event) {
    && e'.timeout && (e'.active <==> e.active && !e.due) && e'.inserted == e.inserted
    && e'.common.None? && e'.delay.None? && SameKind(e, e')
  }

  // Of the other events only the timer is changed, if there is one: it is set for the deadline of the event.
  ghost predicate TimerFollows(ev: Events, ev': Events, id: nat, timer: Option<nat>) {
    && ev'.Keys == ev.Keys && id in ev && timer != Some(id)
    && (forall x :: x in ev && x != id && timer != Some(x) ==> ev'[x] == ev[x])
    && (timer.Some? ==> timer.value in ev && Rescheduled(ev[timer.value], ev'[timer.value])
                        && ev'[timer.value].deadline == ev'[id].deadline)
  }

  // An event after it was put on its descriptor and its timeout was set
  lemma TimedIs(e: Event, deadline: int, common: Option<nat>, delay: Option<nat>)
    ensures var e' := Timed(WithIo(e), deadline, common, delay);
      && (e'.inserted <==> e.inserted || (e.io && !e.active)) && (e'.active <==> e.active && !e.due)
      && e'.timeout && e'.deadline == deadline && e'.common == common && e'.delay == delay && SameKind(e, e')
  {
  }

  lemma FollowsIo(ev: Events, ev': Events, id: nat, timer: Option<nat>)
    requires id in ev && TimerFollows(ev[id := WithIo(ev[id])], ev', id, timer)
    ensures TimerFollows(ev, ev', id, timer)
  {
    var ev1 := ev[id := WithIo(ev[id])];
    assert forall x :: x in ev && x != id ==> ev1[x] == ev[x];
  }

  lemma FollowsAlone(ev: Events, id: nat, e: Event)
    requires id in ev
    ensures TimerFollows(ev, ev[id := e], id, None)
  {
  }

  function Expired(e: Event): Event {
    e.(timeout := false, inserted := false, active := true, due := true)
  }

  // A change of an event that is no timer and keeps its deadline
  lemma TimelySame(ev: Events, c: seq<seq<nat>>, timers: seq<nat>, running: Option<nat>, id: nat, e: Event)
    requires AllTimely(ev, c, timers, running) && TimersOk(ev, |c|, timers) && id in ev && id !in timers
             && e.deadline == ev[id].deadline
    ensures AllTimely(ev[id := e], c, timers, running) && TimersOk(ev[id := e], |c|, timers)
  {
    var ev' := ev[id := e];
    forall i | 0 <= i < |c| ensures Timely(ev', c[i], timers[i], running) {
      assert Timely(ev, c[i], timers[i], running);
    }
  }

  // A timer that goes off is active.
  lemma TimerDue(ev: Events, c: seq<seq<nat>>, ev': Events, c': seq<seq<nat>>, timers: seq<nat>, running: Option<nat>,
                 id: nat)
    requires AllTimely(ev, c, timers, running) && TimersOk(ev, |c|, timers) && id in ev && id in timers
    requires ev' == ev[id := Cleared(ev[id])] && HeadsLater(ev, c, ev', c', id) && InNone(c', id)
    ensures var ev'' := ev'[id := Activated(ev'[id], true)];
              AllTimely(ev'', c', timers, running) && TimersOk(ev'', |c'|, timers)
  {
    var ev'' := ev'[id := Activated(ev'[id], true)];
    forall i | 0 <= i < |c'| ensures Timely(ev'', c'[i], timers[i], running) {
      assert Timely(ev, c[i], timers[i], running) && HeadLater(ev, c[i], ev', c'[i], id);
      assert c'[i] != [] ==> c'[i][0] in c'[i];
    }
  }

  lemma HeadsSize(ev: Events, c: seq<seq<nat>>, ev': Events, c': seq<seq<nat>>, id: nat)
    requires HeadsLater(ev, c, ev', c', id)
    ensures |c| == |c'|
  {
  }

  lemma TimerAt(ev: Events, n: nat, timers: seq<nat>, k: nat)
    requires TimersOk(ev, n, timers) && k < n
    ensures |timers| == n && timers[k] in ev && IsTimer(ev[timers[k]])
  {
  }

  // An event becomes active; that makes no timer late.
  lemma TimelyActivated(ev: Events, c: seq<seq<nat>>, timers: seq<nat>, running: Option<nat>, id: nat, due: bool)
    requires AllTimely(ev, c, timers, running) && TimersOk(ev, |c|, timers) && id in ev
    ensures var ev' := ev[id := Activated(ev[id], due)];
              AllTimely(ev', c, timers, running) && TimersOk(ev', |c|, timers)
  {
    var ev' := ev[id := Activated(ev[id], due)];
    forall i | 0 <= i < |c| ensures Timely(ev', c[i], timers[i], running) {
      assert Timely(ev, c[i], timers[i], running);
    }
  }

  lemma MemberOf(ev: Events, qs: Queues, i: nat, j: nat)
    requires Agree(ev, qs) && i < |qs.common| && j < |qs.common[i]|
    ensures var id := qs.common[i][j]; id in ev && ev[id].timeout && ev[id].common == Some(i)
  {
    assert Lists(qs.common[i], TimeoutSet(ev, Some(i)));
    assert qs.common[i][j] in qs.common[i];
  }

  // An event is at the head of its own list at most.
  lemma HeadElsewhere(ev: Events, qs: Queues, id: nat, timers: seq<nat>, running: Option<nat>)
    requires Agree(ev, qs) && id in ev && TimelyBut(ev, qs.common, timers, running, id)
    requires ev[id].common.Some? ==>
               ev[id].common.value < |qs.common|
                 && (qs.common[ev[id].common.value] == [] || qs.common[ev[id].common.value][0] != id)
    ensures AllTimely(ev, qs.common, timers, running)
  {
    forall i | 0 <= i < |qs.common| ensures Timely(ev, qs.common[i], timers[i], running) {
      if qs.common[i] != [] {
        MemberOf(ev, qs, i, 0);
      }
    }
  }

  lemma HeadOnce(ev: Events, qs: Queues, id: nat, k: nat, timers: seq<nat>, running: Option<nat>)
    requires Agree(ev, qs) && id in ev && k < |qs.common| && qs.common[k] != [] && qs.common[k][0] == id
             && TimelyBut(ev, qs.common, timers, running, id)
    ensures forall i :: 0 <= i < |qs.common| && i != k ==> Timely(ev, qs.common[i], timers[i], running)
  {
    MemberOf(ev, qs, k, 0);
    forall i | 0 <= i < |qs.common| && i != k ensures Timely(ev, qs.common[i], timers[i], running) {
      if qs.common[i] != [] {
        MemberOf(ev, qs, i, 0);
      }
    }
  }

  lemma UpdateSelf(ev: Events, id: nat)
    requires id in ev
    ensures ev[id := ev[id]] == ev
  {
  }

  lemma UpdateTwice(ev: Events, id: nat, a: Event, b: Event)
    ensures ev[id := a][id := b] == ev[id := b]
  {
  }

  lemma HeadsUpdate(ev: Events, common: seq<seq<nat>>, id: nat, e: Event)
    requires AllSorted(ev, common) && id in ev
    ensures HeadsLater(ev, common, ev[id := e], common, id)
  {
    HeadsSame(ev, ev[id := e], common, id);
  }

  lemma TimeoutListNone(qs: Queues, c: Option<nat>, l: seq<nat>)
    requires c.Some? ==> c.value < |qs.common|
    ensures c.None? ==> SetTimeoutList(qs, c, l).common == qs.common
  {
  }

  function Cleared(e: Event): Event {
    e.(timeout := false, active := false, inserted := false)
  }

  function Activated(e: Event, due: bool): Event {
    e.(active := true, due := due || (e.active && e.due))
  }

  // Rescheduling a timeout before its callback ran takes the event off the active queue.
  function Timed(e: Event, deadline: int, common: Option<nat>, delay: Option<nat>): Event {
    e.(timeout := true, active := e.active && !e.due, deadline := deadline, common := common, delay := delay)
  }

  ghost predicate InsertedAt(l: seq<nat>, l': seq<nat>, id: nat, k: nat) {
    k <= |l| && l' == l[..k] + [id] + l[k..]
  }

  lemma ListOf(ev: Events, qs: Queues, c: Option<nat>, id: nat)
    requires Agree(ev, qs) && (c.Some? ==> c.value < |qs.common|) && id in ev && ev[id].common == c
    ensures Lists(TimeoutList(qs, c), TimeoutSet(ev, c)) && (id in TimeoutSet(ev, c) <==> ev[id].timeout)
  {
  }

  lemma ChangeOn(s: set<nat>, id: nat)
    ensures Change(s, id, true) == s + {id}
  {
  }

  lemma ChangeOff(s: set<nat>, id: nat)
    ensures Change(s, id, false) == s - {id}
  {
  }

  lemma AllSortedAt(ev: Events, common: seq<seq<nat>>, i: nat)
    requires AllSorted(ev, common) && i < |common|
    ensures Sorted(ev, common[i])
  {
  }

  lemma AllSortedSet(ev: Events, qs: Queues, c: Option<nat>, l: seq<nat>)
    requires AllSorted(ev, qs.common) && (c.Some? ==> c.value < |qs.common| && Sorted(ev, l))
    ensures AllSorted(ev, SetTimeoutList(qs, c, l).common)
  {
    hide Sorted;
  }

  // ---- The heads of the common-timeout lists ----

  // The head of a list is `id`, or no earlier than the head was.
  ghost predicate HeadLater(ev: Events, l: seq<nat>, ev': Events, l': seq<nat>, id: nat) {
    l' == [] || l'[0] == id || (l != [] && l[0] in ev && l'[0] in ev' && ev[l[0]].deadline <= ev'[l'[0]].deadline)
  }

  ghost predicate HeadsLater(ev: Events, common: seq<seq<nat>>, ev': Events, common': seq<seq<nat>>, id: nat) {
    |common| == |common'| && forall i :: 0 <= i < |common| ==> HeadLater(ev, common[i], ev', common'[i], id)
  }

  ghost predicate InNone(common: seq<seq<nat>>, id: nat) {
    forall i :: 0 <= i < |common| ==> id !in common[i]
  }

  lemma HeadsTrans(ev: Events, c: seq<seq<nat>>, ev1: Events, c1: seq<seq<nat>>, ev2: Events, c2: seq<seq<nat>>,
                   id: nat)
    requires HeadsLater(ev, c, ev1, c1, id) && HeadsLater(ev1, c1, ev2, c2, id) && InNone(c1, id)
    ensures HeadsLater(ev, c, ev2, c2, id)
  {
  }

  // Lists that stay the same
  lemma HeadsSame(ev: Events, ev': Events, common: seq<seq<nat>>, id: nat)
    requires AllSorted(ev, common) && SameElsewhere(ev, ev', id)
    ensures HeadsLater(ev, common, ev', common, id)
  {
    forall i | 0 <= i < |common| ensures HeadLater(ev, common[i], ev', common[i], id) {
      AllSortedAt(ev, common, i);
    }
  }

  lemma HeadsInsert(ev: Events, qs: Queues, ev': Events, c: Option<nat>, l': seq<nat>, id: nat, k: nat)
    requires (c.Some? ==> c.value < |qs.common|) && AllSorted(ev, qs.common) && SameElsewhere(ev, ev', id)
    requires c.Some? ==> InsertedAt(TimeoutList(qs, c), l', id, k)
    ensures HeadsLater(ev, qs.common, ev', SetTimeoutList(qs, c, l').common, id)
  {
    HeadsSame(ev, ev', qs.common, id);
    var common' := SetTimeoutList(qs, c, l').common;
    if c.Some? {
      AllSortedAt(ev, qs.common, c.value);
    }
  }

  lemma HeadsRemove(ev: Events, qs: Queues, ev': Events, c: Option<nat>, id: nat)
    requires (c.Some? ==> c.value < |qs.common|) && AllSorted(ev, qs.common) && SameElsewhere(ev, ev', id) && id in ev
             && ev'[id].deadline == ev[id].deadline
    requires var l := TimeoutList(qs, c); id in l && NoDup(l)
    ensures HeadsLater(ev, qs.common, ev', SetTimeoutList(qs, c, Without(TimeoutList(qs, c), id)).common, id)
  {
    HeadsSame(ev, ev', qs.common, id);
    if c.Some? {
      AllSortedAt(ev, qs.common, c.value);
      var l := qs.common[c.value];
      SortedWithout(ev, l, id);
      AllSortedSet(ev, qs, c, Without(l, id));
      hide Without;
      assert Without(l, id) != [] ==> Without(l, id)[0] in ev by {
        assert Sorted(ev, Without(l, id));
      }
    }
  }

  lemma InRangeAt(ev: Events, qs: Queues, id: nat)
    requires InRange(ev, qs) && id in ev
    ensures ev[id].pri < |qs.active| && (ev[id].common.Some? ==> ev[id].common.value < |qs.common|)
  {
  }

  lemma LastPlace(l: seq<nat>, id: nat)
    ensures InsertedAt(l, l + [id], id, |l|)
  {
    assert l[..|l|] + [id] + l[|l|..] == l + [id];
  }

  lemma InsertedKeeps(ev: Events, qs: Queues, id: nat, k: nat, l': seq<nat>)
    requires Agree(ev, qs) && InRange(ev, qs) && AllSorted(ev, qs.common) && id in ev && !ev[id].timeout
    requires InsertedAt(TimeoutList(qs, ev[id].common), l', id, k)
    requires ev[id].common.Some? ==> Sorted(ev, l')
    ensures var ev', qs' := ev[id := Mark(ev[id], Timeout, true)], SetTimeoutList(qs, ev[id].common, l');
      && Agree(ev', qs') && AllSorted(ev', qs'.common) && HeadsLater(ev, qs.common, ev', qs'.common, id)
      && InRange(ev', qs') && InRange(ev', qs)
  {
    hide Agree, AllSorted, Sorted, TimeoutSet, Change, SetTimeoutList, Lists, HeadsLater;
    var c := ev[id].common;
    var l, ev', qs' := TimeoutList(qs, c), ev[id := Mark(ev[id], Timeout, true)], SetTimeoutList(qs, c, l');
    ListOf(ev, qs, c, id);
    ListsInsert(l, TimeoutSet(ev, c), k, id);
    ChangeOn(TimeoutSet(ev, c), id);
    AgreeTimeout(ev, qs, id, true, l');
    AllSortedSet(ev, qs, c, l');
    AllSortedSame(ev, ev', qs'.common, id);
    HeadsInsert(ev, qs, ev', c, l', id, k);
  }

  lemma RemovedKeeps(ev: Events, qs: Queues, id: nat)
    requires Agree(ev, qs) && InRange(ev, qs) && AllSorted(ev, qs.common) && id in ev && ev[id].timeout
    ensures var ev', qs' := ev[id := Mark(ev[id], Timeout, false)],
            SetTimeoutList(qs, ev[id].common, Without(TimeoutList(qs, ev[id].common), id));
      && Agree(ev', qs') && AllSorted(ev', qs'.common) && HeadsLater(ev, qs.common, ev', qs'.common, id)
      && InRange(ev', qs') && InRange(ev', qs)
  {
    hide Agree, AllSorted, Sorted, TimeoutSet, Change, SetTimeoutList, HeadsLater, Without, NoDup;
    var c := ev[id].common;
    var l := TimeoutList(qs, c);
    var l', ev' := Without(l, id), ev[id := Mark(ev[id], Timeout, false)];
    ListOf(ev, qs, c, id);
    if c.Some? {
      AllSortedAt(ev, qs.common, c.value);
      SortedWithout(ev, l, id);
    }
    ListsRemove(l, TimeoutSet(ev, c), id);
    ChangeOff(TimeoutSet(ev, c), id);
    AgreeTimeout(ev, qs, id, false, l');
    AllSortedSet(ev, qs, c, l');
    AllSortedSame(ev, ev', SetTimeoutList(qs, c, l').common, id);
    HeadsRemove(ev, qs, ev', c, id);
  }

  // Nowhere without the flag
  lemma NotListed(ev: Events, qs: Queues, id: nat)
    requires Agree(ev, qs) && id in ev && !ev[id].timeout
    ensures InNone(qs.common, id) && id !in qs.heap
  {
    forall i | 0 <= i < |qs.common| ensures id !in qs.common[i] {
      assert Lists(qs.common[i], TimeoutSet(ev, Some(i)));
    }
  }

  // ---- The timers of the common-timeout lists ----

  predicate IsTimer(e: Event) {
    e.internal && !e.io && !e.persist && e.common.None? && !e.inserted && e.delay.None?
  }

  ghost predicate TimersOk(ev: Events, n: nat, timers: seq<nat>) {
    |timers| == n && NoDup(timers) && forall i :: 0 <= i < n ==> timers[i] in ev && IsTimer(ev[timers[i]])
  }

  // The timer of a list that is not empty goes off in time, or is about to be dealt with.
  ghost predicate Timely(ev: Events, l: seq<nat>, t: nat, running: Option<nat>) {
    l == [] || (l[0] in ev && t in ev
                && ((ev[t].timeout && ev[t].deadline <= ev[l[0]].deadline) || ev[t].active || running == Some(t)))
  }

  // The timer is pending, for the deadline of the event.
  ghost predicate AtHead(ev: Events, timer: nat, id: nat) {
    && timer in ev && id in ev
    && ev[timer].timeout && ev[timer].common.None? && ev[timer].deadline == ev[id].deadline
  }

  ghost predicate AllTimely(ev: Events, common: seq<seq<nat>>, timers: seq<nat>, running: Option<nat>) {
    |timers| == |common| && forall i :: 0 <= i < |common| ==> Timely(ev, common[i], timers[i], running)
  }

  // All lists but those that have `id` at their head
  ghost predicate TimelyBut(ev: Events, common: seq<seq<nat>>, timers: seq<nat>, running: Option<nat>, id: nat) {
    |timers| == |common|
      && forall i :: 0 <= i < |common| && common[i] != [] && common[i][0] != id ==>
           Timely(ev, common[i], timers[i], running)
  }

  // An event that is no timer is moved about.
  lemma TimelyAfter(ev: Events, c: seq<seq<nat>>, timers: seq<nat>, running: Option<nat>, id: nat, e: Event,
                    c': seq<seq<nat>>)
    requires AllTimely(ev, c, timers, running) && id in ev && id !in timers && TimersOk(ev, |c|, timers)
    requires HeadsLater(ev, c, ev[id := e], c', id)
    ensures TimelyBut(ev[id := e], c', timers, running, id) && TimersOk(ev[id := e], |c'|, timers)
    ensures InNone(c', id) ==> AllTimely(ev[id := e], c', timers, running)
  {
    var ev' := ev[id := e];
    forall i | 0 <= i < |c'| && c'[i] != [] && c'[i][0] != id ensures Timely(ev', c'[i], timers[i], running) {
      assert HeadLater(ev, c[i], ev', c'[i], id) && Timely(ev, c[i], timers[i], running);
    }
    if InNone(c', id) {
      forall i | 0 <= i < |c'| ensures Timely(ev', c'[i], timers[i], running) {
        assert c'[i] != [] ==> c'[i][0] in c'[i];
      }
    }
  }

  // Members of the lists are no timers.
  lemma TimersNotListed(ev: Events, qs: Queues, timers: seq<nat>, k: nat)
    requires Agree(ev, qs) && TimersOk(ev, |qs.common|, timers) && k < |timers|
    ensures InNone(qs.common, timers[k])
  {
    var t := timers[k];
    forall i | 0 <= i < |qs.common| ensures t !in qs.common[i] {
      assert Lists(qs.common[i], TimeoutSet(ev, Some(i)));
    }
  }

  // One timer changes, and its list is timely with it.
  lemma TimerChanged(ev: Events, common: seq<seq<nat>>, timers: seq<nat>, running: Option<nat>, k: nat, e: Event)
    requires TimersOk(ev, |common|, timers) && k < |timers| && IsTimer(e) && InNone(common, timers[k])
    requires forall i :: 0 <= i < |common| && i != k ==> Timely(ev, common[i], timers[i], running)
    requires common[k] == []
             || (common[k][0] in ev
                 && ((e.timeout && e.deadline <= ev[common[k][0]].deadline) || e.active || running == Some(timers[k])))
    ensures var ev' := ev[timers[k] := e]; AllTimely(ev', common, timers, running) && TimersOk(ev', |common|, timers)
  {
    var ev' := ev[timers[k] := e];
    forall i | 0 <= i < |common| ensures Timely(ev', common[i], timers[i], running) {
      assert common[i] != [] ==> common[i][0] in common[i];
    }
  }
}
