/**
 The epoll backend: one queued change of an fd's interest turned into epoll_ctl calls, and the
 coalescing of several changes into one. Level-triggered events only.
 */
module Epoll {

  datatype Interest = Interest(read: bool, write: bool) {
    predicate Empty() { !read && !write }
  }

  datatype Mark = Keep | Add | Del

  // struct event_change: what was enabled before the changes, and the change per direction
  datatype Change = Change(fd: nat, was: Interest, read: Mark, write: Mark)

  // What the kernel knows about an fd. A closed fd answers EBADF and an fd that cannot be
  // polled answers EPERM to everything.
  datatype Registration = Closed | Unpollable | Unregistered | Registered(events: Interest)

  datatype Op = CtlAdd | CtlMod | CtlDel
  datatype Errno = OK | EEXIST | ENOENT | EBADF | EPERM
  datatype Syscall = Syscall(kernel: Registration, errno: Errno)
  datatype Applied = Applied(kernel: Registration, ok: bool)

  // epoll_ctl
  function Ctl(k: Registration, op: Op, events: Interest): Syscall {
    match k
    case Closed => Syscall(k, EBADF)
    case Unpollable => Syscall(k, EPERM)
    case Unregistered => if op.CtlAdd? then Syscall(Registered(events), OK) else Syscall(k, ENOENT)
    case Registered(_) =>
      match op
      case CtlAdd => Syscall(k, EEXIST)
      case CtlMod => Syscall(Registered(events), OK)
      case CtlDel => Syscall(Unregistered, OK)
  }

  // The choice of operation and events in epoll_apply_one_change
  function Choose(ch: Change): (Op, Interest) {
    if ch.read.Add? || ch.write.Add? then
      (if ch.was.Empty() then CtlAdd else CtlMod,
       Interest(ch.read.Add? || (!ch.read.Del? && ch.was.read), ch.write.Add? || (!ch.write.Del? && ch.was.write)))
    else if ch.read.Del? then
      if ch.write.Del? then (CtlDel, Interest(true, true))
      else if ch.was.write then (CtlMod, Interest(false, true))
      else (CtlDel, Interest(true, false))
    else if ch.write.Del? then
      if ch.was.read then (CtlMod, Interest(true, false))
      else (CtlDel, Interest(false, true))
    else (CtlAdd, Interest(false, false))
  }

  // What the change asks for
  function Marked(m: Mark, was: bool): bool {
    m.Add? || (m.Keep? && was)
  }

  function Target(ch: Change): Interest {
    Interest(Marked(ch.read, ch.was.read), Marked(ch.write, ch.was.write))
  }

  predicate NoChange(ch: Change) {
    ch.read.Keep? && ch.write.Keep?
  }

  predicate Pollable(k: Registration) {
    k.Unregistered? || k.Registered?
  }

  function Registers(i: Interest): Registration {
    if i.Empty() then Unregistered else Registered(i)
  }

  /** epoll_apply_one_change. Whatever was registered for a usable fd, a change that changes
      anything leaves exactly the interest it asks for, and succeeds; on an unusable fd it
      fails iff something is asked for. */
  function ApplyOne(k: Registration, ch: Change): (r: Applied)
    ensures NoChange(ch) ==> r == Applied(k, true)
    ensures !NoChange(ch) && Pollable(k) ==> r == Applied(Registers(Target(ch)), true)
    ensures !NoChange(ch) && !Pollable(k) ==> r == Applied(k, Target(ch).Empty())
  {
    var (op, events) := Choose(ch);
    if events.Empty() then Applied(k, true)
    else
      var first := Ctl(k, op, events);
      if first.errno.OK? then Applied(first.kernel, true)
      else if op.CtlMod? && first.errno.ENOENT? then
        var retry := Ctl(k, CtlAdd, events);
        Applied(retry.kernel, retry.errno.OK?)
      else if op.CtlAdd? && first.errno.EEXIST? then
        var retry := Ctl(k, CtlMod, events);
        Applied(retry.kernel, retry.errno.OK?)
      else Applied(first.kernel, op.CtlDel? && first.errno in {ENOENT, EBADF, EPERM})
  }

  // ---- Coalescing: event_changelist_add and event_changelist_del on the entry of an fd ----

  function QueueAdd(ch: Change, events: Interest): Change {
    ch.(read := if events.read then Add else ch.read, write := if events.write then Add else ch.write)
  }

  // A delete takes back an add of something that was not enabled before.
  function DelMark(m: Mark, was: bool): Mark {
    if !was && m.Add? then Keep else Del
  }

  function QueueDel(ch: Change, events: Interest): Change {
    ch.(read := if events.read then DelMark(ch.read, ch.was.read) else ch.read,
        write := if events.write then DelMark(ch.write, ch.was.write) else ch.write)
  }

  // A call of the backend for one fd, as evmap makes it
  datatype Call = AddCall(events: Interest) | DelCall(events: Interest)

  // evmap adds directions that were off and deletes directions that were on, at least one.
  predicate Proper(cur: Interest, c: Call) {
    && !c.events.Empty()
    && if c.AddCall? then !(c.events.read && cur.read) && !(c.events.write && cur.write)
       else (c.events.read ==> cur.read) && (c.events.write ==> cur.write)
  }

  function After(cur: Interest, c: Call): Interest {
    if c.AddCall? then Interest(cur.read || c.events.read, cur.write || c.events.write)
    else Interest(cur.read && !c.events.read, cur.write && !c.events.write)
  }

  function Queue(ch: Change, c: Call): Change {
    if c.AddCall? then QueueAdd(ch, c.events) else QueueDel(ch, c.events)
  }

  // epoll_nochangelist_add and epoll_nochangelist_del: a change record of its own per call
  function Single(fd: nat, cur: Interest, c: Call): Change {
    var m := if c.AddCall? then Add else Del;
    Change(fd, cur, if c.events.read then m else Keep, if c.events.write then m else Keep)
  }

  ghost predicate ProperRun(cur: Interest, calls: seq<Call>)
    decreases calls
  {
    calls == [] || (Proper(cur, calls[0]) && ProperRun(After(cur, calls[0]), calls[1..]))
  }

  function Wanted(cur: Interest, calls: seq<Call>): Interest
    decreases calls
  {
    if calls == [] then cur else Wanted(After(cur, calls[0]), calls[1..])
  }

  function QueueAll(ch: Change, calls: seq<Call>): Change
    decreases calls
  {
    if calls == [] then ch else QueueAll(Queue(ch, calls[0]), calls[1..])
  }

  function ApplyEach(fd: nat, k: Registration, cur: Interest, calls: seq<Call>): Registration
    decreases calls
  {
    if calls == [] then k
    else ApplyEach(fd, ApplyOne(k, Single(fd, cur, calls[0])).kernel, After(cur, calls[0]), calls[1..])
  }

  // A queued change asks for what the calls made so far add up to.
  lemma QueueStep(ch: Change, cur: Interest, c: Call)
    requires Target(ch) == cur && Proper(cur, c)
    ensures Queue(ch, c).was == ch.was && Queue(ch, c).fd == ch.fd && Target(Queue(ch, c)) == After(cur, c)
  {
  }

  lemma {:induction false} QueueAllTarget(ch: Change, cur: Interest, calls: seq<Call>)
    requires Target(ch) == cur && ProperRun(cur, calls)
    ensures QueueAll(ch, calls).was == ch.was && Target(QueueAll(ch, calls)) == Wanted(cur, calls)
    decreases calls
  {
    if calls != [] {
      QueueStep(ch, cur, calls[0]);
      QueueAllTarget(Queue(ch, calls[0]), After(cur, calls[0]), calls[1..]);
    }
  }

  lemma {:induction false} ApplyEachSettles(fd: nat, k: Registration, cur: Interest, calls: seq<Call>)
    requires ProperRun(cur, calls) && Pollable(k)
    ensures ApplyEach(fd, k, cur, calls) == if calls == [] then k else Registers(Wanted(cur, calls))
    decreases calls
  {
    if calls != [] {
      assert Target(Single(fd, cur, calls[0])) == After(cur, calls[0]);
      ApplyEachSettles(fd, ApplyOne(k, Single(fd, cur, calls[0])).kernel, After(cur, calls[0]), calls[1..]);
    }
  }

  /** For every sequence of calls on an fd between two dispatches, and whatever the kernel had
      registered: the coalesced change leaves what applying each call at once leaves, unless
      everything was taken back and the kernel was not up to date to begin with. */
  lemma CoalescingIsExact(fd: nat, k: Registration, cur: Interest, calls: seq<Call>)
    requires ProperRun(cur, calls) && Pollable(k)
    ensures var ch := QueueAll(Change(fd, cur, Keep, Keep), calls);
      && (!NoChange(ch) ==> ApplyOne(k, ch) == Applied(Registers(Wanted(cur, calls)), true))
      && (ApplyOne(k, ch).kernel == ApplyEach(fd, k, cur, calls) <==>
            calls == [] || !NoChange(ch) || k == Registers(Wanted(cur, calls)))
  {
    var clean := Change(fd, cur, Keep, Keep);
    QueueAllTarget(clean, cur, calls);
    ApplyEachSettles(fd, k, cur, calls);
  }

  // Taking everything back really can leave the kernel behind: an fd that was closed and
  // opened again keeps no registration.
  lemma CoalescingCanMiss()
    ensures var calls := [AddCall(Interest(false, true)), DelCall(Interest(false, true))];
      var cur, k := Interest(true, false), Unregistered;
      && ProperRun(cur, calls)
      && ApplyOne(k, QueueAll(Change(0, cur, Keep, Keep), calls)).kernel == Unregistered
      && ApplyEach(0, k, cur, calls) == Registered(Interest(true, false))
  {
    var calls := [AddCall(Interest(false, true)), DelCall(Interest(false, true))];
    var cur := Interest(true, false);
    assert calls[1..] == [calls[1]] && calls[1..][1..] == [];
    ApplyEachSettles(0, Unregistered, cur, calls);
    assert Wanted(cur, calls) == cur;
  }
}
