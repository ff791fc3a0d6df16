/**
 The event map: which events wait on which fd, how many of them read and write, and the
 changelist that is applied when the loop dispatches.
 */
module Evmap {
  import opened Epoll

  datatype Event = Event(id: nat, fd: int, read: bool, write: bool)

  // struct evmap_io with its changelist slot
  datatype IoEntry = IoEntry(events: seq<Event>, nread: nat, nwrite: nat, idxplus1: nat)

  const MAX_EVENTS := 0xffff

  ghost function Readers(s: seq<Event>): nat {
    if s == [] then 0 else Readers(s[..|s| - 1]) + if s[|s| - 1].read then 1 else 0
  }

  ghost function Writers(s: seq<Event>): nat {
    if s == [] then 0 else Writers(s[..|s| - 1]) + if s[|s| - 1].write then 1 else 0
  }

  function Without(s: seq<Event>, i: nat): seq<Event>
    requires i < |s|
  {
    s[..i] + s[i + 1..]
  }

  lemma {:induction false} CountsWithout(s: seq<Event>, i: nat)
    requires i < |s|
    ensures Readers(Without(s, i)) == Readers(s) - if s[i].read then 1 else 0
    ensures Writers(Without(s, i)) == Writers(s) - if s[i].write then 1 else 0
    decreases s
  {
    var n := |s| - 1;
    if i < n {
      CountsWithout(s[..n], i);
      assert Without(s, i)[..n - 1] == Without(s[..n], i);
    } else {
      assert Without(s, i) == s[..n];
    }
  }

  function Bits(e: IoEntry): Interest {
    Interest(e.nread > 0, e.nwrite > 0)
  }

  ghost predicate Counted(fd: nat, e: IoEntry) {
    && e.nread == Readers(e.events) <= MAX_EVENTS && e.nwrite == Writers(e.events) <= MAX_EVENTS
    && forall i :: 0 <= i < |e.events| ==> e.events[i].fd == fd
  }

  ghost predicate AllCounted(io: map<nat, IoEntry>) {
    forall fd :: fd in io ==> Counted(fd, io[fd])
  }

  lemma CountsAppend(fd: nat, io: map<nat, IoEntry>, ev: Event)
    requires AllCounted(io) && fd in io && ev.fd == fd
    requires (ev.read ==> io[fd].nread < MAX_EVENTS) && (ev.write ==> io[fd].nwrite < MAX_EVENTS)
    ensures var e := io[fd];
      Counted(fd, IoEntry(e.events + [ev], if ev.read then e.nread + 1 else e.nread,
                          if ev.write then e.nwrite + 1 else e.nwrite, e.idxplus1))
  {
    assert (io[fd].events + [ev])[..|io[fd].events|] == io[fd].events;
  }

  lemma CountsRemove(fd: nat, io: map<nat, IoEntry>, i: nat)
    requires AllCounted(io) && fd in io && i < |io[fd].events|
    ensures var e := io[fd]; var ev := e.events[i];
      && (ev.read ==> e.nread > 0) && (ev.write ==> e.nwrite > 0)
      && Counted(fd, IoEntry(Without(e.events, i), if ev.read then e.nread - 1 else e.nread,
                             if ev.write then e.nwrite - 1 else e.nwrite, e.idxplus1))
  {
    CountsWithout(io[fd].events, i);
  }

  lemma CountsBounded(fd: nat, io: map<nat, IoEntry>)
    requires AllCounted(io) && fd in io
    ensures io[fd].nread <= MAX_EVENTS && io[fd].nwrite <= MAX_EVENTS
  {
  }

  lemma CountedUpdate(io: map<nat, IoEntry>, fd: nat, e: IoEntry)
    requires AllCounted(io) && Counted(fd, e)
    ensures AllCounted(io[fd := e])
  {
  }

  function Known(kernel: map<nat, Registration>, fd: nat): Registration {
    if fd in kernel then kernel[fd] else Closed
  }

  function InterestIn(settled: map<nat, Interest>, fd: nat): Interest {
    if fd in settled then settled[fd] else Interest(false, false)
  }

  function EntryIn(io: map<nat, IoEntry>, fd: nat): IoEntry {
    if fd in io then io[fd] else IoEntry([], 0, 0, 0)
  }

  // At most one change per fd: the entries and the slots point at each other.
  ghost predicate Linked(io: map<nat, IoEntry>, cs: seq<Change>) {
    && (forall i :: 0 <= i < |cs| ==> cs[i].fd in io && io[cs[i].fd].idxplus1 == i + 1)
    && (forall fd :: fd in io && io[fd].idxplus1 > 0 ==> io[fd].idxplus1 <= |cs| && cs[io[fd].idxplus1 - 1].fd == fd)
  }

  // The queued change of an fd leads from what was wanted at the last dispatch to what is
  // wanted now; without one, nothing has changed.
  ghost predicate Tracked(io: map<nat, IoEntry>, cs: seq<Change>, settled: map<nat, Interest>, fd: nat)
    requires Linked(io, cs) && fd in io
  {
    if io[fd].idxplus1 == 0 then Bits(io[fd]) == InterestIn(settled, fd)
    else var ch := cs[io[fd].idxplus1 - 1]; ch.was == InterestIn(settled, fd) && Target(ch) == Bits(io[fd])
  }

  ghost predicate AllTracked(io: map<nat, IoEntry>, cs: seq<Change>, settled: map<nat, Interest>) {
    Linked(io, cs) && forall fd :: fd in io ==> Tracked(io, cs, settled, fd)
  }

  lemma SlotInRange(io: map<nat, IoEntry>, cs: seq<Change>, fd: nat)
    requires Linked(io, cs) && fd in io
    ensures io[fd].idxplus1 <= |cs| && (io[fd].idxplus1 > 0 ==> cs[io[fd].idxplus1 - 1].fd == fd)
  {
  }

  lemma LinkNew(io: map<nat, IoEntry>, cs: seq<Change>, fd: nat, ch: Change)
    requires Linked(io, cs) && fd in io && io[fd].idxplus1 == 0 && ch.fd == fd
    ensures Linked(io[fd := io[fd].(idxplus1 := |cs| + 1)], cs + [ch])
  {
    var io', cs' := io[fd := io[fd].(idxplus1 := |cs| + 1)], cs + [ch];
    forall i | 0 <= i < |cs'|
      ensures cs'[i].fd in io' && io'[cs'[i].fd].idxplus1 == i + 1
    {
      assert i < |cs| ==> cs'[i] == cs[i] && cs[i].fd != fd;
    }
  }

  lemma LinkSame(io: map<nat, IoEntry>, cs: seq<Change>, fd: nat, e: IoEntry, idx: nat, ch: Change)
    requires Linked(io, cs) && fd in io && idx < |cs| && e.idxplus1 == io[fd].idxplus1 == idx + 1 && ch.fd == fd
    ensures Linked(io[fd := e], cs[idx := ch])
  {
    var io', cs' := io[fd := e], cs[idx := ch];
    forall i | 0 <= i < |cs'|
      ensures cs'[i].fd in io' && io'[cs'[i].fd].idxplus1 == i + 1
    {
      assert cs[idx].fd == fd;
      assert cs'[i].fd == cs[i].fd;
    }
    forall f | f in io' && io'[f].idxplus1 > 0
      ensures io'[f].idxplus1 <= |cs'| && cs'[io'[f].idxplus1 - 1].fd == f
    {
      assert io'[f].idxplus1 == io[f].idxplus1;
    }
  }

  lemma LinkEntry(io: map<nat, IoEntry>, cs: seq<Change>, fd: nat, e: IoEntry)
    requires Linked(io, cs) && e.idxplus1 == EntryIn(io, fd).idxplus1
    ensures Linked(io[fd := e], cs)
  {
    var io' := io[fd := e];
    forall i | 0 <= i < |cs|
      ensures cs[i].fd in io' && io'[cs[i].fd].idxplus1 == i + 1
    {
    }
    forall f | f in io' && io'[f].idxplus1 > 0
      ensures io'[f].idxplus1 <= |cs| && cs[io'[f].idxplus1 - 1].fd == f
    {
      assert f in io && io'[f].idxplus1 == io[f].idxplus1;
    }
  }

  // A new entry for an fd that has none
  lemma TrackNew(io: map<nat, IoEntry>, cs: seq<Change>, settled: map<nat, Interest>, fd: nat)
    requires AllTracked(io, cs, settled) && fd in io && io[fd].idxplus1 == 0
    ensures AllTracked(io[fd := io[fd].(idxplus1 := |cs| + 1)], cs + [Change(fd, Bits(io[fd]), Keep, Keep)], settled)
  {
    var io', cs' := io[fd := io[fd].(idxplus1 := |cs| + 1)], cs + [Change(fd, Bits(io[fd]), Keep, Keep)];
    assert Tracked(io, cs, settled, fd);
    LinkNew(io, cs, fd, Change(fd, Bits(io[fd]), Keep, Keep));
    hide Linked;
    forall f | f in io'
      ensures Tracked(io', cs', settled, f)
    {
      if f != fd {
        assert Tracked(io, cs, settled, f);
        SlotInRange(io, cs, f);
      }
    }
  }

  // A change marked for a call, and the counts updated accordingly
  lemma TrackCall(io: map<nat, IoEntry>, cs: seq<Change>, settled: map<nat, Interest>, fd: nat, c: Call, e: IoEntry)
    requires AllTracked(io, cs, settled) && fd in io && io[fd].idxplus1 > 0 && Proper(Bits(io[fd]), c)
    requires Bits(e) == After(Bits(io[fd]), c) && e.idxplus1 == io[fd].idxplus1
    ensures var idx := e.idxplus1 - 1; AllTracked(io[fd := e], cs[idx := Queue(cs[idx], c)], settled)
  {
    hide Target, Queue, After, Proper;
    var idx := e.idxplus1 - 1;
    assert Tracked(io, cs, settled, fd);
    QueueStep(cs[idx], Bits(io[fd]), c);
    var ch := Queue(cs[idx], c);
    var io', cs' := io[fd := e], cs[idx := ch];
    LinkSame(io, cs, fd, e, idx, ch);
    hide Linked;
    forall f | f in io'
      ensures Tracked(io', cs', settled, f)
    {
      assert Tracked(io, cs, settled, f);
      SlotInRange(io, cs, f);
    }
  }

  // Counts changed without turning a direction on or off
  lemma TrackSame(io: map<nat, IoEntry>, cs: seq<Change>, settled: map<nat, Interest>, fd: nat, e: IoEntry)
    requires AllTracked(io, cs, settled) && fd in io && Bits(e) == Bits(io[fd]) && e.idxplus1 == io[fd].idxplus1
    ensures AllTracked(io[fd := e], cs, settled)
  {
    var io' := io[fd := e];
    LinkEntry(io, cs, fd, e);
    hide Linked;
    forall f | f in io'
      ensures Tracked(io', cs, settled, f)
    {
      assert Tracked(io, cs, settled, f);
    }
  }

  // The kernel has, for every usable fd, the interest that the events on it add up to.
  ghost predicate UpToDate(kernel: map<nat, Registration>, io: map<nat, IoEntry>) {
    forall fd: nat :: Pollable(Known(kernel, fd)) ==> Known(kernel, fd) == Registers(Bits(EntryIn(io, fd)))
  }

  // The same fds can be polled.
  ghost predicate SameUse(kernel: map<nat, Registration>, kernel': map<nat, Registration>) {
    forall fd: nat :: Pollable(Known(kernel', fd)) == Pollable(Known(kernel, fd))
  }

  // A slot made for an fd that had none
  lemma TrackSlot(io: map<nat, IoEntry>, cs: seq<Change>, settled: map<nat, Interest>, fd: nat)
    requires AllTracked(io, cs, settled) && fd !in io && settled.Keys <= io.Keys
    ensures AllTracked(io[fd := IoEntry([], 0, 0, 0)], cs, settled)
  {
    var io' := io[fd := IoEntry([], 0, 0, 0)];
    LinkEntry(io, cs, fd, IoEntry([], 0, 0, 0));
    hide Linked;
    forall f | f in io'
      ensures Tracked(io', cs, settled, f)
    {
      assert f != fd ==> Tracked(io, cs, settled, f);
    }
  }

  ghost predicate Distinct(cs: seq<Change>) {
    forall i, j :: 0 <= i < j < |cs| ==> cs[i].fd != cs[j].fd
  }

  ghost predicate Mentions(cs: seq<Change>, fd: nat) {
    exists i :: 0 <= i < |cs| && cs[i].fd == fd
  }

  lemma ChangesDistinct(io: map<nat, IoEntry>, cs: seq<Change>, settled: map<nat, Interest>)
    requires AllTracked(io, cs, settled)
    ensures Distinct(cs)
  {
    forall i, j | 0 <= i < j < |cs|
      ensures cs[i].fd != cs[j].fd
    {
      assert io[cs[i].fd].idxplus1 == i + 1 && io[cs[j].fd].idxplus1 == j + 1;
    }
  }

  lemma MentionedIff(io: map<nat, IoEntry>, cs: seq<Change>, settled: map<nat, Interest>, fd: nat)
    requires AllTracked(io, cs, settled)
    ensures Mentions(cs, fd) <==> fd in io && io[fd].idxplus1 > 0
    ensures Mentions(cs, fd) ==> io[fd].idxplus1 <= |cs| && cs[io[fd].idxplus1 - 1].fd == fd
  {
    if fd in io && io[fd].idxplus1 > 0 {
      assert cs[io[fd].idxplus1 - 1].fd == fd;
    }
  }

  /** The loop of epoll_apply_changes: with one change per fd, each change meets the kernel as
      it was before the loop. */
  method ApplyAll(before: map<nat, Registration>, cs: seq<Change>) returns (kernel: map<nat, Registration>, r: int)
    requires Distinct(cs)
    ensures forall i :: 0 <= i < |cs| ==> Known(kernel, cs[i].fd) == ApplyOne(Known(before, cs[i].fd), cs[i]).kernel
    ensures forall fd: nat :: !Mentions(cs, fd) ==> Known(kernel, fd) == Known(before, fd)
    ensures r == if forall i :: 0 <= i < |cs| ==> ApplyOne(Known(before, cs[i].fd), cs[i]).ok then 0 else -1
  {
    hide ApplyOne;
    kernel, r := before, 0;
    for i := 0 to |cs|
      invariant forall j :: 0 <= j < |cs| ==>
                  Known(kernel, cs[j].fd) == if j < i then ApplyOne(Known(before, cs[j].fd), cs[j]).kernel
                                             else Known(before, cs[j].fd)
      invariant forall fd: nat :: !Mentions(cs, fd) ==> Known(kernel, fd) == Known(before, fd)
      invariant r == if forall j :: 0 <= j < i ==> ApplyOne(Known(before, cs[j].fd), cs[j]).ok then 0 else -1
    {
      var a := ApplyOne(Known(kernel, cs[i].fd), cs[i]);
      if !a.ok {
        r := -1;
      }
      kernel := kernel[cs[i].fd := a.kernel];
    }
  }

  // What a dispatch makes of the kernel's view of an fd
  ghost function Settled(kernel: map<nat, Registration>, io: map<nat, IoEntry>, cs: seq<Change>, fd: nat): Registration
    requires Linked(io, cs)
  {
    var k := Known(kernel, fd);
    if fd in io && io[fd].idxplus1 > 0 && !NoChange(cs[io[fd].idxplus1 - 1]) && Pollable(k) then Registers(Bits(io[fd]))
    else k
  }

  lemma SettledIs(kernel: map<nat, Registration>, io: map<nat, IoEntry>, cs: seq<Change>, settled: map<nat, Interest>,
                  fd: nat)
    requires AllTracked(io, cs, settled)
    ensures Settled(kernel, io, cs, fd) ==
            if fd in io && io[fd].idxplus1 > 0 then ApplyOne(Known(kernel, fd), cs[io[fd].idxplus1 - 1]).kernel
            else Known(kernel, fd)
  {
    assert fd in io ==> Tracked(io, cs, settled, fd);
  }

  lemma SettledUse(kernel: map<nat, Registration>, kernel': map<nat, Registration>, io: map<nat, IoEntry>,
                   cs: seq<Change>)
    requires Linked(io, cs) && forall fd: nat :: Known(kernel', fd) == Settled(kernel, io, cs, fd)
    ensures SameUse(kernel, kernel')
  {
    hide Linked;
  }

  // The kernel is up to date with the last dispatch.
  ghost predicate Synced(kernel: map<nat, Registration>, settled: map<nat, Interest>) {
    forall fd: nat :: Pollable(Known(kernel, fd)) ==> Known(kernel, fd) == Registers(InterestIn(settled, fd))
  }

  /** What every dispatch achieves: an fd with a net change is as wanted whatever the kernel
      had, and if the kernel was up to date before the changes, every fd is. */
  lemma DispatchSettles(kernel: map<nat, Registration>, kernel': map<nat, Registration>, io: map<nat, IoEntry>,
                        cs: seq<Change>, settled: map<nat, Interest>)
    requires AllTracked(io, cs, settled) && settled.Keys <= io.Keys && Synced(kernel, settled)
    requires forall fd: nat :: Known(kernel', fd) == Settled(kernel, io, cs, fd)
    ensures UpToDate(kernel', AllOff(io))
  {
    forall fd: nat | Pollable(Known(kernel', fd))
      ensures Known(kernel', fd) == Registers(Bits(EntryIn(AllOff(io), fd)))
    {
      SettledIs(kernel, io, cs, settled, fd);
      assert fd in io ==> Tracked(io, cs, settled, fd);
      assert Bits(EntryIn(AllOff(io), fd)) == Bits(EntryIn(io, fd));
    }
  }

  function AllOff(io: map<nat, IoEntry>): map<nat, IoEntry> {
    map fd | fd in io :: io[fd].(idxplus1 := 0)
  }

  function InterestNow(io: map<nat, IoEntry>): map<nat, Interest> {
    map fd | fd in io :: Bits(io[fd])
  }

  lemma SlotsInRange(io: map<nat, IoEntry>, cs: seq<Change>, settled: map<nat, Interest>)
    requires AllTracked(io, cs, settled)
    ensures forall fd :: fd in io ==> io[fd].idxplus1 <= |cs|
  {
  }

  lemma ClearedIsTracked(io: map<nat, IoEntry>)
    requires AllCounted(io)
    ensures AllTracked(AllOff(io), [], InterestNow(io)) && AllCounted(AllOff(io))
  {
    hide Readers, Writers;
    var io' := AllOff(io);
    assert Linked(io', []);
    forall fd | fd in io'
      ensures Tracked(io', [], InterestNow(io), fd) && Counted(fd, io'[fd])
    {
      assert Counted(fd, io[fd]);
    }
  }

  // The loop of event_changelist_remove_all
  method ClearSlots(before: map<nat, IoEntry>, cs: seq<Change>, ghost settled: map<nat, Interest>)
    returns (io: map<nat, IoEntry>)
    requires AllTracked(before, cs, settled)
    ensures io == AllOff(before)
  {
    hide Tracked;
    io := before;
    for i := 0 to |cs|
      invariant io.Keys == before.Keys
      invariant forall fd ::
                  fd in io ==> io[fd] == if 0 < before[fd].idxplus1 <= i then before[fd].(idxplus1 := 0) else before[fd]
    {
      var fd := cs[i].fd;
      assert io[fd].idxplus1 == i + 1;
      io := io[fd := io[fd].(idxplus1 := 0)];
    }
    SlotsInRange(before, cs, settled);
  }

  // ---- Series of adds, deletes and dispatches, on the set of events that wait ----

  datatype Request = Enter(ev: Event) | Leave(ev: Event) | Settle

  // The events that wait, and those of which the kernel has been told
  datatype World = World(waiting: set<Event>, told: set<Event>)

  ghost function On(s: set<Event>, fd: int, write: bool): set<Event> {
    set e | e in s && e.fd == fd && if write then e.write else e.read
  }

  // The interest that the events on an fd add up to
  ghost function InterestOf(s: set<Event>, fd: int): Interest {
    Interest(On(s, fd, false) != {}, On(s, fd, true) != {})
  }

  // The directions that only ev, out of s, is interested in
  ghost function Alone(s: set<Event>, ev: Event): Interest {
    Interest(ev.read && On(s - {ev}, ev.fd, false) == {}, ev.write && On(s - {ev}, ev.fd, true) == {})
  }

  ghost predicate Crowded(s: set<Event>, ev: Event) {
    (ev.read && |On(s, ev.fd, false)| == MAX_EVENTS) || (ev.write && |On(s, ev.fd, true)| == MAX_EVENTS)
  }

  // deaf says that the kernel is asked at once and refuses the fd. An event that waits is not added
  // again, and one that does not is not deleted.
  ghost function Answer(s: set<Event>, deaf: bool, q: Request): int {
    match q
    case Enter(ev) =>
      if ev.fd < 0 || ev in s then 0
      else if Crowded(s, ev) || (deaf && !Alone(s, ev).Empty()) then -1
      else if Alone(s, ev).Empty() then 0 else 1
    case Leave(ev) =>
      if ev !in s || Alone(s, ev).Empty() then 0
      else if deaf && !InterestOf(s - {ev}, ev.fd).Empty() then -1 else 1
    case Settle => 0
  }

  ghost predicate Deaf(kernel: map<nat, Registration>, changelist: bool, q: Request) {
    !changelist && !q.Settle? && q.ev.fd >= 0 && !Pollable(Known(kernel, q.ev.fd))
  }

  ghost function Next(w: World, kernel: map<nat, Registration>, changelist: bool, q: Request): World {
    var done := Answer(w.waiting, Deaf(kernel, changelist, q), q) >= 0;
    var waiting := if q.Enter? && q.ev.fd >= 0 && done then w.waiting + {q.ev}
                   else if q.Leave? && done then w.waiting - {q.ev} else w.waiting;
    World(waiting, if changelist && !q.Settle? then w.told else waiting)
  }

  ghost function Play(w: World, kernel: map<nat, Registration>, changelist: bool, qs: seq<Request>): World
    decreases |qs|
  {
    if qs == [] then w else Play(Next(w, kernel, changelist, qs[0]), kernel, changelist, qs[1..])
  }

  ghost function Answers(w: World, kernel: map<nat, Registration>, changelist: bool, qs: seq<Request>): seq<int>
    decreases |qs|
  {
    if qs == [] then []
    else
      [Answer(w.waiting, Deaf(kernel, changelist, qs[0]), qs[0])]
      + Answers(Next(w, kernel, changelist, qs[0]), kernel, changelist, qs[1..])
  }

  lemma InterestMeans(s: set<Event>, fd: int)
    ensures InterestOf(s, fd).read <==> exists e :: e in s && e.fd == fd && e.read
    ensures InterestOf(s, fd).write <==> exists e :: e in s && e.fd == fd && e.write
  {
    assert forall e :: e in On(s, fd, false) <==> e in s && e.fd == fd && e.read;
    assert forall e :: e in On(s, fd, true) <==> e in s && e.fd == fd && e.write;
  }

  lemma AloneMeans(s: set<Event>, ev: Event)
    ensures Alone(s, ev).Empty() <==> InterestOf(s + {ev}, ev.fd) == InterestOf(s - {ev}, ev.fd)
  {
    forall write: bool
      ensures On(s + {ev}, ev.fd, write) ==
                On(s - {ev}, ev.fd, write) + if write then (if ev.write then {ev} else {})
                                             else (if ev.read then {ev} else {}) {
    }
  }

  /** An answer of 1 says that the interest in the fd has changed, one of 0 that it has not, and -1 that the event
      was refused: one too many for a counter, or a change of interest that the kernel would not take. */
  lemma AnswerMeans(w: World, kernel: map<nat, Registration>, changelist: bool, q: Request)
    requires !q.Settle? && q.ev.fd >= 0
    ensures var ev, s, deaf := q.ev, w.waiting, !changelist && !Pollable(Known(kernel, q.ev.fd));
      var r, s' := Answer(s, Deaf(kernel, changelist, q), q), Next(w, kernel, changelist, q).waiting;
      var asked := if q.Enter? then s + {ev} else s - {ev};
      var changes := InterestOf(asked, ev.fd) != InterestOf(s, ev.fd);
      && -1 <= r <= 1 && s' == (if r == -1 then s else asked)
      && (r == 1 ==> changes) && (r == 0 ==> !changes)
      && (q.Enter? ==>
            (r == -1 <==>
               ev !in s
                 && ((ev.read && |On(s, ev.fd, false)| == 65535) || (ev.write && |On(s, ev.fd, true)| == 65535)
                     || (deaf && changes))))
      && (q.Leave? ==> (r == -1 <==> deaf && changes && InterestOf(asked, ev.fd) != Interest(false, false)))
  {
    var ev, s := q.ev, w.waiting;
    AloneMeans(s, ev);
    if ev in s {
      assert s + {ev} == s;
    } else {
      assert s - {ev} == s;
    }
    hide On, Alone, InterestOf;
  }

  // The answers depend on which fds can be used, and that does not change.
  lemma NextSameUse(w: World, k: map<nat, Registration>, k': map<nat, Registration>, changelist: bool, q: Request)
    requires SameUse(k, k')
    ensures Next(w, k, changelist, q) == Next(w, k', changelist, q) && Deaf(k, changelist, q) == Deaf(k', changelist, q)
  {
  }

  lemma SettleAnswer(s: set<Event>, deaf: bool)
    ensures Answer(s, deaf, Settle) == 0
  {
  }

  ghost function Listed(io: map<nat, IoEntry>): set<Event> {
    set fd, e | fd in io && e in io[fd].events :: e
  }

  ghost predicate NoDup(s: seq<Event>) {
    forall i, j :: 0 <= i < j < |s| ==> s[i] != s[j]
  }

  ghost predicate NoneTwice(io: map<nat, IoEntry>) {
    forall fd :: fd in io ==> NoDup(io[fd].events)
  }

  ghost function Members(s: seq<Event>, write: bool): set<Event> {
    set e | e in s && if write then e.write else e.read
  }

  lemma {:induction false} MembersCounted(s: seq<Event>)
    requires NoDup(s)
    ensures |Members(s, false)| == Readers(s) && |Members(s, true)| == Writers(s)
  {
    if s != [] {
      var s', e := s[..|s| - 1], s[|s| - 1];
      MembersCounted(s');
      MembersMore(s', e, false);
      MembersMore(s', e, true);
      assert s == s' + [e];
    }
  }

  lemma MembersMore(s: seq<Event>, e: Event, write: bool)
    requires e !in s
    ensures |Members(s + [e], write)| == |Members(s, write)| + if (if write then e.write else e.read) then 1 else 0
  {
    assert Members(s + [e], write) == Members(s, write) + if (if write then e.write else e.read) then {e} else {};
  }

  // The counts of an entry are the numbers of events that wait on its fd.
  lemma CountsAre(io: map<nat, IoEntry>, fd: nat)
    requires AllCounted(io) && NoneTwice(io)
    ensures var e := EntryIn(io, fd);
      && |On(Listed(io), fd, false)| == e.nread && |On(Listed(io), fd, true)| == e.nwrite
      && Bits(e) == InterestOf(Listed(io), fd)
  {
    hide Readers, Writers;
    OnIs(io, fd, false);
    OnIs(io, fd, true);
    if fd in io {
      MembersCounted(io[fd].events);
      assert Counted(fd, io[fd]);
    }
  }

  lemma OnIs(io: map<nat, IoEntry>, fd: nat, write: bool)
    requires AllCounted(io)
    ensures On(Listed(io), fd, write) == Members(EntryIn(io, fd).events, write)
  {
    hide Readers, Writers;
    forall e | e in On(Listed(io), fd, write) ensures e in Members(EntryIn(io, fd).events, write) {
      ListedWhere(io, e);
    }
    forall e | e in Members(EntryIn(io, fd).events, write) ensures e in On(Listed(io), fd, write) {
      assert fd in io && e in io[fd].events && Counted(fd, io[fd]);
    }
  }

  lemma ListedWhere(io: map<nat, IoEntry>, e: Event)
    requires AllCounted(io)
    ensures e in Listed(io) <==> e.fd >= 0 && e in EntryIn(io, e.fd).events
  {
    hide Readers, Writers;
    if e in Listed(io) {
      var fd :| fd in io && e in io[fd].events;
      assert Counted(fd, io[fd]);
    }
  }

  lemma ListedSame(io: map<nat, IoEntry>, io': map<nat, IoEntry>)
    requires AllCounted(io) && AllCounted(io') && NoneTwice(io)
    requires forall f: nat :: EntryIn(io', f).events == EntryIn(io, f).events
    ensures Listed(io') == Listed(io) && NoneTwice(io')
  {
    hide AllCounted, Listed;
    forall e ensures e in Listed(io') <==> e in Listed(io) {
      ListedWhere(io', e);
      ListedWhere(io, e);
    }
    forall fd | fd in io' ensures NoDup(io'[fd].events) {
      assert io'[fd].events == EntryIn(io', fd).events == EntryIn(io, fd).events;
    }
  }

  lemma Entered(io: map<nat, IoEntry>, io': map<nat, IoEntry>, ev: Event)
    requires AllCounted(io) && AllCounted(io') && NoneTwice(io) && ev.fd >= 0 && ev !in Listed(io)
    requires forall f: nat :: f != ev.fd ==> EntryIn(io', f).events == EntryIn(io, f).events
    requires EntryIn(io', ev.fd).events == EntryIn(io, ev.fd).events + [ev]
    ensures Listed(io') == Listed(io) + {ev} && NoneTwice(io')
  {
    hide AllCounted, Listed;
    ListedWhere(io, ev);
    forall e ensures e in Listed(io') <==> e in Listed(io) || e == ev {
      ListedWhere(io', e);
      ListedWhere(io, e);
    }
    forall fd | fd in io' ensures NoDup(io'[fd].events) {
      assert io'[fd].events == EntryIn(io', fd).events;
    }
  }

  lemma Left(io: map<nat, IoEntry>, io': map<nat, IoEntry>, ev: Event, i: nat)
    requires AllCounted(io) && AllCounted(io') && NoneTwice(io) && ev.fd >= 0
    requires forall f: nat :: f != ev.fd ==> EntryIn(io', f).events == EntryIn(io, f).events
    requires var es := EntryIn(io, ev.fd).events;
               i < |es| && es[i] == ev && EntryIn(io', ev.fd).events == Without(es, i)
    ensures Listed(io') == Listed(io) - {ev} && NoneTwice(io')
  {
    hide AllCounted, Listed;
    WithoutOne(EntryIn(io, ev.fd).events, i);
    forall e ensures e in Listed(io') <==> e in Listed(io) && e != ev {
      ListedWhere(io', e);
      ListedWhere(io, e);
    }
    forall fd | fd in io' ensures NoDup(io'[fd].events) {
      assert io'[fd].events == EntryIn(io', fd).events;
    }
  }

  lemma WithoutOne(s: seq<Event>, i: nat)
    requires NoDup(s) && i < |s|
    ensures NoDup(Without(s, i)) && forall e :: e in Without(s, i) <==> e in s && e != s[i]
  {
    var t := Without(s, i);
    assert forall k :: 0 <= k < |t| ==> t[k] == if k < i then s[k] else s[k + 1];
    forall e | e in s && e != s[i] ensures e in t {
      var k :| 0 <= k < |s| && s[k] == e;
      assert t[if k < i then k else k - 1] == e;
    }
  }

  // The kernel is up to date with a map exactly if it has the interest of the events listed.
  lemma UpToDateIs(kernel: map<nat, Registration>, io: map<nat, IoEntry>)
    requires AllCounted(io) && NoneTwice(io)
    ensures UpToDate(kernel, io) <==> HasInterest(kernel, Listed(io))
  {
    hide AllCounted, NoneTwice, Listed, On;
    forall fd: nat ensures Bits(EntryIn(io, fd)) == InterestOf(Listed(io), fd) {
      CountsAre(io, fd);
    }
  }

  ghost predicate HasInterest(kernel: map<nat, Registration>, s: set<Event>) {
    forall fd: nat :: Pollable(Known(kernel, fd)) ==> Known(kernel, fd) == Registers(InterestOf(s, fd))
  }

  ghost predicate Remembers(settled: map<nat, Interest>, s: set<Event>) {
    forall fd: nat :: InterestIn(settled, fd) == InterestOf(s, fd)
  }

  lemma NowRemembers(io: map<nat, IoEntry>)
    requires AllCounted(io) && NoneTwice(io)
    ensures Remembers(InterestNow(io), Listed(io))
  {
    hide AllCounted, NoneTwice, Listed, On;
    forall fd: nat ensures InterestIn(InterestNow(io), fd) == InterestOf(Listed(io), fd) {
      CountsAre(io, fd);
    }
  }

  // What an entry says about an event to be added
  lemma EnterCounts(io: map<nat, IoEntry>, ev: Event)
    requires AllCounted(io) && NoneTwice(io) && ev.fd >= 0 && ev !in Listed(io)
    ensures var e, s := EntryIn(io, ev.fd), Listed(io);
      && (Crowded(s, ev) <==> (ev.read && e.nread == MAX_EVENTS) || (ev.write && e.nwrite == MAX_EVENTS))
      && Alone(s, ev) == Interest(ev.read && e.nread == 0, ev.write && e.nwrite == 0)
  {
    hide AllCounted, NoneTwice, Listed, On;
    CountsAre(io, ev.fd);
    assert Listed(io) - {ev} == Listed(io);
  }

  lemma LeaveCounts(io: map<nat, IoEntry>, ev: Event)
    requires AllCounted(io) && NoneTwice(io) && ev in Listed(io)
    ensures var e, s := EntryIn(io, ev.fd), Listed(io);
      && ev.fd >= 0
      && Alone(s, ev) == Interest(ev.read && e.nread == 1, ev.write && e.nwrite == 1)
      && InterestOf(s - {ev}, ev.fd) ==
           Interest(e.nread > if ev.read then 1 else 0, e.nwrite > if ev.write then 1 else 0)
  {
    hide AllCounted, NoneTwice, Listed;
    ListedWhere(io, ev);
    CountsAre(io, ev.fd);
    OnLess(Listed(io), ev, false);
    OnLess(Listed(io), ev, true);
  }

  lemma OnLess(s: set<Event>, ev: Event, write: bool)
    requires ev in s
    ensures |On(s - {ev}, ev.fd, write)| == |On(s, ev.fd, write)| - if (if write then ev.write else ev.read) then 1
                                                                        else 0
  {
    assert On(s - {ev}, ev.fd, write) == On(s, ev.fd, write) - {ev};
  }

  // ---- The event map of an event_base ----

  class EventBase {
    var io: map<nat, IoEntry>
    var changes: seq<Change>
    var kernel: map<nat, Registration>
    const useChangelist: bool
    ghost var settled: map<nat, Interest>  // what was wanted when the changelist was last emptied

    ghost predicate Valid()
      reads this
    {
      && AllCounted(io)
      && (if useChangelist then AllTracked(io, changes, settled) else changes == [])
      && settled.Keys <= io.Keys
    }

    constructor (changelist: bool, initial: map<nat, Registration>)
      ensures Valid() && io == map[] && kernel == initial && useChangelist == changelist
      ensures (forall fd: nat :: !Known(initial, fd).Registered?) ==> Is(World({}, {}))
    {
      io, changes, kernel, useChangelist, settled := map[], [], initial, changelist, map[];
    }

    // event_changelist_get_or_construct
    method GetOrConstruct(fd: nat) returns (idx: nat)
      requires Valid() && useChangelist && fd in io
      modifies this`changes, this`io
      ensures Valid() && fd in io && idx < |changes| && io == old(io)[fd := old(io)[fd].(idxplus1 := idx + 1)]
    {
      hide Readers, Writers, Linked, Tracked;
      if io[fd].idxplus1 == 0 {
        CountedUpdate(io, fd, io[fd].(idxplus1 := |changes| + 1));
        TrackNew(io, changes, settled, fd);
        changes := changes + [Change(fd, Bits(io[fd]), Keep, Keep)];
        io := io[fd := io[fd].(idxplus1 := |changes|)];
        idx := |changes| - 1;
      } else {
        SlotInRange(io, changes, fd);
        idx := io[fd].idxplus1 - 1;
        assert io == io[fd := io[fd].(idxplus1 := idx + 1)];
      }
    }

    /** event_changelist_add and event_changelist_del; the entry e is what evmap stores after
        the call. */
    method QueueChange(fd: nat, c: Call, e: IoEntry)
      requires Valid() && useChangelist && fd in io && Proper(Bits(io[fd]), c)
      requires Counted(fd, e) && Bits(e) == After(Bits(io[fd]), c)
      modifies this`changes, this`io
      ensures Valid() && fd in io && io == old(io)[fd := e.(idxplus1 := io[fd].idxplus1)]
    {
      hide AllCounted, AllTracked, Readers, Writers, Queue, After, Proper;
      var idx := GetOrConstruct(fd);
      TrackCall(io, changes, settled, fd, c, e.(idxplus1 := idx + 1));
      CountedUpdate(io, fd, e.(idxplus1 := idx + 1));
      changes, io := changes[idx := Queue(changes[idx], c)], io[fd := e.(idxplus1 := idx + 1)];
    }

    // GET_IO_SLOT_AND_CTOR
    method MakeSlot(fd: nat)
      requires Valid()
      modifies this`io
      ensures Valid() && fd in io && io == old(io)[fd := EntryIn(old(io), fd)]
    {
      hide Linked, Tracked;
      if fd !in io {
        if useChangelist {
          TrackSlot(io, changes, settled, fd);
        }
        CountedUpdate(io, fd, IoEntry([], 0, 0, 0));
        io := io[fd := IoEntry([], 0, 0, 0)];
      } else {
        assert io == io[fd := io[fd]];
      }
    }

    // evsel->add or evsel->del, and the entry evmap stores when it succeeds
    method CallBackend(fd: nat, c: Call, e: IoEntry) returns (ok: bool)
      requires Valid() && fd in io && Proper(Bits(io[fd]), c)
      requires Counted(fd, e) && Bits(e) == After(Bits(io[fd]), c)
      modifies this`changes, this`io, this`kernel
      ensures Valid() && fd in io
      ensures useChangelist ==> ok && kernel == old(kernel) && io == old(io)[fd := e.(idxplus1 := io[fd].idxplus1)]
      ensures !useChangelist ==> ok == (Pollable(Known(old(kernel), fd)) || Bits(e).Empty())
      ensures !useChangelist ==> io == if ok then old(io)[fd := e] else old(io)
      ensures !useChangelist ==>
                Known(kernel, fd) == if Pollable(Known(old(kernel), fd)) then Registers(Bits(e))
                                     else Known(old(kernel), fd)
      ensures forall f :: f != fd ==> Known(kernel, f) == Known(old(kernel), f)
    {
      hide AllCounted, AllTracked, Readers, Writers;
      if useChangelist {
        QueueChange(fd, c, e);
        ok := true;
      } else {
        var single := Single(fd, Bits(io[fd]), c);
        assert Target(single) == After(Bits(io[fd]), c) && !NoChange(single);
        var a := ApplyOne(Known(kernel, fd), single);
        kernel := kernel[fd := a.kernel];
        ok := a.ok;
        if ok {
          CountedUpdate(io, fd, e);
          io := io[fd := e];
        }
      }
    }

    // Store an entry and tell the backend what it changes; c is that change, if any.
    method Store(fd: nat, e: IoEntry, c: Call) returns (r: int)
      requires Valid() && fd in io && Counted(fd, e) && e.idxplus1 == io[fd].idxplus1
      requires if c.events.Empty() then Bits(e) == Bits(io[fd])
               else Proper(Bits(io[fd]), c) && Bits(e) == After(Bits(io[fd]), c)
      modifies this`changes, this`io, this`kernel
      ensures Valid()
      ensures r == if Bits(e) == Bits(old(io)[fd]) then 0
                   else if useChangelist || Pollable(Known(old(kernel), fd)) || Bits(e).Empty() then 1 else -1
      ensures r >= 0 ==> fd in io && io == old(io)[fd := e.(idxplus1 := io[fd].idxplus1)]
      ensures r == -1 ==> io == old(io)
      ensures useChangelist ==> kernel == old(kernel)
      ensures !useChangelist && UpToDate(old(kernel), old(io)) ==> UpToDate(kernel, io)
      ensures SameUse(old(kernel), kernel)
    {
      hide AllCounted, AllTracked, Readers, Writers;
      if !c.events.Empty() {
        var ok := CallBackend(fd, c, e);
        r := if ok then 1 else -1;
      } else {
        if useChangelist {
          TrackSame(io, changes, settled, fd, e);
        }
        CountedUpdate(io, fd, e);
        io := io[fd := e];
        r := 0;
      }
    }

    method IoAdd(ev: Event) returns (r: int)
      requires Valid()
      modifies this`changes, this`io, this`kernel
      ensures Valid() && (useChangelist ==> kernel == old(kernel))
      ensures !useChangelist && UpToDate(old(kernel), old(io)) ==> UpToDate(kernel, io)
      ensures -1 <= r <= 1 && SameUse(old(kernel), kernel)
      ensures ev.fd < 0 ==> r == 0 && io == old(io)
      ensures forall f :: f != ev.fd ==> EntryIn(io, f) == EntryIn(old(io), f)
      ensures ev.fd >= 0 ==>
        var e, e' := EntryIn(old(io), ev.fd), EntryIn(io, ev.fd);
        var on := Interest(ev.read && e.nread == 0, ev.write && e.nwrite == 0);
        var full := (ev.read && e.nread == MAX_EVENTS) || (ev.write && e.nwrite == MAX_EVENTS);
        && (r == -1 <==> full || (!on.Empty() && !useChangelist && !Pollable(Known(old(kernel), ev.fd))))
        && (r == -1 ==> e' == e)
        && (r >= 0 ==> e'.events == e.events + [ev] && r == if on.Empty() then 0 else 1)
    {
      hide AllCounted, AllTracked, Readers, Writers;
      if ev.fd < 0 {
        return 0;
      }
      var fd: nat := ev.fd;
      MakeSlot(fd);
      var e := io[fd];
      var nread := if ev.read then e.nread + 1 else e.nread;
      var nwrite := if ev.write then e.nwrite + 1 else e.nwrite;
      CountsBounded(fd, io);
      if nread > MAX_EVENTS || nwrite > MAX_EVENTS {
        return -1;
      }
      var e' := IoEntry(e.events + [ev], nread, nwrite, e.idxplus1);
      CountsAppend(fd, io, ev);
      r := Store(fd, e', AddCall(Interest(ev.read && nread == 1, ev.write && nwrite == 1)));
    }

    method IoDel(ev: Event) returns (r: int)
      requires Valid() && (ev.fd >= 0 && ev.fd in io ==> ev in io[ev.fd].events)
      modifies this`changes, this`io, this`kernel
      ensures Valid() && (useChangelist ==> kernel == old(kernel))
      ensures !useChangelist && UpToDate(old(kernel), old(io)) ==> UpToDate(kernel, io)
      ensures -1 <= r <= 1 && SameUse(old(kernel), kernel)
      ensures ev.fd < 0 ==> r == 0 && io == old(io)
      ensures ev.fd >= 0 && ev.fd !in old(io) ==> r == -1 && io == old(io)
      ensures forall f :: f != ev.fd ==> EntryIn(io, f) == EntryIn(old(io), f)
      ensures ev.fd >= 0 && ev.fd in old(io) ==>
        var e, e' := old(io)[ev.fd], EntryIn(io, ev.fd);
        var off := Interest(ev.read && e.nread == 1, ev.write && e.nwrite == 1);
        var left := Interest(e.nread > if ev.read then 1 else 0, e.nwrite > if ev.write then 1 else 0);
        && (r == -1 <==> !off.Empty() && !left.Empty() && !useChangelist && !Pollable(Known(old(kernel), ev.fd)))
        && (r == -1 ==> e' == e)
        && (r >= 0 ==>
              r == (if off.Empty() then 0 else 1)
                && exists i :: 0 <= i < |e.events| && e.events[i] == ev && e'.events == Without(e.events, i))
    {
      hide AllCounted, AllTracked, Readers, Writers;
      if ev.fd < 0 {
        return 0;
      }
      if ev.fd !in io {
        return -1;
      }
      var fd: nat := ev.fd;
      var e := io[fd];
      var i :| 0 <= i < |e.events| && e.events[i] == ev;
      CountsRemove(fd, io, i);
      var nread := if ev.read then e.nread - 1 else e.nread;
      var nwrite := if ev.write then e.nwrite - 1 else e.nwrite;
      var e' := IoEntry(Without(e.events, i), nread, nwrite, e.idxplus1);
      r := Store(fd, e', DelCall(Interest(ev.read && nread == 0, ev.write && nwrite == 0)));
    }

    // epoll_apply_changes
    method ApplyChanges() returns (r: int)
      requires Valid() && useChangelist
      modifies this`kernel
      ensures Valid()
      ensures forall fd: nat :: Known(kernel, fd) == Settled(old(kernel), io, changes, fd)
      ensures r == 0 || r == -1
      ensures r == 0 <==> forall i :: 0 <= i < |changes| ==>
                ApplyOne(Known(old(kernel), changes[i].fd), changes[i]).ok
    {
      assert Linked(io, changes);
      hide AllCounted, ApplyOne, Settled, AllTracked, Linked;
      ChangesDistinct(io, changes, settled);
      kernel, r := ApplyAll(kernel, changes);
      forall fd: nat
        ensures Known(kernel, fd) == Settled(old(kernel), io, changes, fd)
      {
        SettledIs(old(kernel), io, changes, settled, fd);
        MentionedIff(io, changes, settled, fd);
      }
    }

    // event_changelist_remove_all
    method RemoveAll()
      requires Valid() && useChangelist
      modifies this`io, this`changes, this`settled
      ensures Valid() && changes == [] && io == AllOff(old(io)) && settled == InterestNow(old(io))
    {
      hide AllTracked, AllCounted;
      ClearedIsTracked(io);
      io := ClearSlots(io, changes, settled);
      changes := [];
      settled := InterestNow(io);
      assert InterestNow(io) == InterestNow(old(io));
    }

    /** The changes of a dispatch, as epoll_dispatch makes them before it waits */
    method Dispatch() returns (r: int)
      requires Valid() && useChangelist
      modifies this`kernel, this`io, this`changes, this`settled
      ensures Valid() && changes == [] && io == AllOff(old(io)) && settled == InterestNow(old(io))
      ensures Linked(old(io), old(changes))
              && forall fd: nat :: Known(kernel, fd) == Settled(old(kernel), old(io), old(changes), fd)
      ensures Synced(old(kernel), old(settled)) ==> UpToDate(kernel, io) && Synced(kernel, settled)
      ensures SameUse(old(kernel), kernel) && -1 <= r <= 0
      ensures r == -1 <==>
                exists i :: 0 <= i < |old(changes)|
                  && !ApplyOne(Known(old(kernel), old(changes)[i].fd), old(changes)[i]).ok
    {
      assert Linked(io, changes);
      hide AllCounted, ApplyOne, Settled, AllTracked, Linked;
      r := ApplyChanges();
      SettledUse(old(kernel), kernel, io, changes);
      hide SameUse;
      if Synced(old(kernel), settled) {
        DispatchSettles(old(kernel), kernel, io, changes, settled);
      }
      RemoveAll();
    }

    /** The kernel has, for every usable fd, the interest of the events that were told to it. */
    ghost predicate Told(told: set<Event>)
      reads this
    {
      HasInterest(kernel, told) && if useChangelist then Remembers(settled, told) else told == Listed(io)
    }

    // What waits, and what the kernel has been told, is as the specification says.
    ghost predicate Is(w: World)
      reads this
    {
      Valid() && NoneTwice(io) && Listed(io) == w.waiting && Told(w.told)
    }

    method EnterOne(ev: Event, ghost w: World) returns (r: int)
      requires Is(w)
      modifies this`changes, this`io, this`kernel
      ensures SameUse(old(kernel), kernel) && Is(Next(w, old(kernel), useChangelist, Enter(ev)))
      ensures r == Answer(w.waiting, Deaf(old(kernel), useChangelist, Enter(ev)), Enter(ev))
    {
      hide AllCounted, AllTracked, NoneTwice, Listed, On, UpToDate, HasInterest, Remembers, Crowded, Alone, InterestOf;
      ListedWhere(io, ev);
      if ev.fd < 0 || ev in EntryIn(io, ev.fd).events {
        assert w.waiting + {ev} == w.waiting || ev.fd < 0;
        return 0;
      }
      EnterCounts(io, ev);
      UpToDateIs(kernel, io);
      r := IoAdd(ev);
      if r == -1 {
        ListedSame(old(io), io);
      } else {
        Entered(old(io), io, ev);
      }
      UpToDateIs(kernel, io);
    }

    method LeaveOne(ev: Event, ghost w: World) returns (r: int)
      requires Is(w)
      modifies this`changes, this`io, this`kernel
      ensures SameUse(old(kernel), kernel) && Is(Next(w, old(kernel), useChangelist, Leave(ev)))
      ensures r == Answer(w.waiting, Deaf(old(kernel), useChangelist, Leave(ev)), Leave(ev))
    {
      hide AllCounted, AllTracked, NoneTwice, Listed, On, UpToDate, HasInterest, Remembers, Crowded, Alone, InterestOf;
      ListedWhere(io, ev);
      if ev.fd < 0 || ev !in EntryIn(io, ev.fd).events {
        assert w.waiting - {ev} == w.waiting;
        return 0;
      }
      LeaveCounts(io, ev);
      UpToDateIs(kernel, io);
      r := IoDel(ev);
      if r == -1 {
        ListedSame(old(io), io);
      } else {
        ghost var es := old(io)[ev.fd].events;
        ghost var i :| 0 <= i < |es| && es[i] == ev && EntryIn(io, ev.fd).events == Without(es, i);
        Left(old(io), io, ev, i);
      }
      UpToDateIs(kernel, io);
    }

    method SettleAll(ghost w: World)
      requires Is(w)
      modifies this`changes, this`io, this`kernel, this`settled
      ensures SameUse(old(kernel), kernel) && Is(Next(w, old(kernel), useChangelist, Settle))
    {
      hide AllCounted, AllTracked, NoneTwice, Listed, On, UpToDate, Crowded, Alone, InterestOf;
      if useChangelist {
        NowRemembers(io);
        var _ := Dispatch();
        ListedSame(old(io), io);
        UpToDateIs(kernel, io);
      }
    }

    method ServeOne(q: Request, ghost w: World, ghost k: map<nat, Registration>) returns (r: int)
      requires Is(w) && SameUse(k, kernel)
      modifies this`changes, this`io, this`kernel, this`settled
      ensures SameUse(k, kernel) && Is(Next(w, k, useChangelist, q))
      ensures r == Answer(w.waiting, Deaf(k, useChangelist, q), q)
    {
      hide Is, SameUse, Next, Answer, Deaf;
      NextSameUse(w, k, kernel, useChangelist, q);
      match q {
        case Enter(ev) => r := EnterOne(ev, w);
        case Leave(ev) => r := LeaveOne(ev, w);
        case Settle =>
          SettleAll(w);
          SettleAnswer(w.waiting, Deaf(k, useChangelist, q));
          r := 0;
      }
      SameUseTwice(k, old(kernel), kernel);
    }

    /** Every series of adds, deletes and dispatches: which events wait in the end, what every call
        answers, and that the kernel has exactly the interest of those that waited at the last
        dispatch, or without a changelist of those that wait. */
    method Serve(qs: seq<Request>, ghost w: World) returns (answers: seq<int>)
      requires Is(w)
      modifies this`changes, this`io, this`kernel, this`settled
      ensures SameUse(old(kernel), kernel) && Is(Play(w, old(kernel), useChangelist, qs))
      ensures answers == Answers(w, old(kernel), useChangelist, qs)
      ensures qs != [] && (useChangelist ==> qs[|qs| - 1].Settle?) ==> HasInterest(kernel, Listed(io))
    {
      ghost var w1, k := w, kernel;
      assert SameUse(k, kernel);
      hide Is, SameUse, Next, Answer, Deaf, Play, Answers;
      answers := [];
      assert qs[0..] == qs;
      for i := 0 to |qs|
        invariant Is(w1) && SameUse(k, kernel)
        invariant Play(w1, k, useChangelist, qs[i..]) == Play(w, k, useChangelist, qs)
        invariant answers + Answers(w1, k, useChangelist, qs[i..]) == Answers(w, k, useChangelist, qs)
      {
        PlayFirst(w1, k, useChangelist, qs, i);
        ghost var done := answers;
        var r := ServeOne(qs[i], w1, k);
        answers := answers + [r];
        w1 := Next(w1, k, useChangelist, qs[i]);
        Regroup(done, r, Answers(w1, k, useChangelist, qs[i + 1..]));
      }
      assert qs[|qs|..] == [];
      PlayNone(w1, k, useChangelist);
      if qs != [] && (useChangelist ==> qs[|qs| - 1].Settle?) {
        PlaySettled(w, k, useChangelist, qs);
        IsInterest(w1);
      }
    }

    lemma IsInterest(w: World)
      requires Is(w)
      ensures HasInterest(kernel, w.told) && Listed(io) == w.waiting
    {
    }
  }

  lemma Regroup(done: seq<int>, r: int, more: seq<int>)
    ensures done + ([r] + more) == done + [r] + more
  {
  }

  lemma PlayNone(w: World, k: map<nat, Registration>, changelist: bool)
    ensures Play(w, k, changelist, []) == w && Answers(w, k, changelist, []) == []
  {
  }

  // A dispatch at the end tells the kernel of everything that waits.
  lemma {:induction false} PlaySettled(w: World, k: map<nat, Registration>, changelist: bool, qs: seq<Request>)
    requires qs != [] && (changelist ==> qs[|qs| - 1].Settle?)
    ensures Play(w, k, changelist, qs).told == Play(w, k, changelist, qs).waiting
    decreases |qs|
  {
    if |qs| > 1 {
      PlaySettled(Next(w, k, changelist, qs[0]), k, changelist, qs[1..]);
    }
  }

  lemma PlayFirst(w: World, k: map<nat, Registration>, changelist: bool, qs: seq<Request>, i: nat)
    requires i < |qs|
    ensures var w' := Next(w, k, changelist, qs[i]);
      && Play(w, k, changelist, qs[i..]) == Play(w', k, changelist, qs[i + 1..])
      && Answers(w, k, changelist, qs[i..]) ==
           [Answer(w.waiting, Deaf(k, changelist, qs[i]), qs[i])] + Answers(w', k, changelist, qs[i + 1..])
  {
    assert qs[i..][0] == qs[i] && qs[i..][1..] == qs[i + 1..];
  }

  lemma SameUseTwice(k0: map<nat, Registration>, k1: map<nat, Registration>, k2: map<nat, Registration>)
    requires SameUse(k0, k1) && SameUse(k1, k2)
    ensures SameUse(k0, k2)
  {
  }
}
