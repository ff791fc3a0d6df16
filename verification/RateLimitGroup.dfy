/**
 The suspend and unsuspend protocol of a rate-limit group, for one direction, under all thread
 interleavings.

 The group lock nests inside the locks of the bufferevents, so a thread that holds it can only
 try the lock of a member, and passes over a member that is locked by another thread.
 */
module RateLimitGroup {
  import opened Wrappers

  // A bufferevent is being added, with the group's suspended flag as it was captured under the
  // group lock, or being removed; in both cases the thread that does it holds its lock.
  datatype Phase = Settled | Adding(captured: bool) | Removing

  // flagged is BEV_SUSPEND_BW_GROUP in read_suspended.
  datatype Bev = Bev(owner: Option<nat>, member: bool, flagged: bool, phase: Phase)

  // What the holder of the group lock is in the middle of
  datatype Holder =
    | NoHolder
    | Suspending(thread: nat, todo: seq<nat>)
    | Unsuspending(thread: nat, todo: seq<nat>, again: bool)

  datatype Group = Group(bevs: seq<Bev>, suspended: bool, pending: bool, holder: Holder)

  datatype Step =
    | Lock(t: nat, b: nat) | Unlock(t: nat, b: nat)
    | LookAtLimit(t: nat, b: nat)
    | StartSuspend(t: nat, todo: seq<nat>) | StartUnsuspend(t: nat, todo: seq<nat>)
    | Visit | End
    | StartAdd(t: nat, b: nat) | EndAdd(b: nat)
    | StartRemove(t: nat, b: nat) | EndRemove(b: nat)

  function SetBev(g: Group, b: nat, x: Bev): Group
    requires b < |g.bevs|
  {
    g.(bevs := g.bevs[b := x])
  }

  // A thread does one thing at a time.
  predicate Busy(g: Group, t: nat) {
    exists b :: 0 <= b < |g.bevs| && g.bevs[b].owner == Some(t) && g.bevs[b].phase != Settled
  }

  // todo lists the members, in some order.
  predicate Lists(g: Group, todo: seq<nat>) {
    && (forall i :: 0 <= i < |todo| ==> todo[i] < |g.bevs| && g.bevs[todo[i]].member)
    && (forall b :: 0 <= b < |g.bevs| && g.bevs[b].member ==> b in todo)
  }

  // EVLOCK_TRY_LOCK on a recursive lock
  predicate CanLock(g: Group, t: nat, b: nat)
    requires b < |g.bevs|
  {
    g.bevs[b].owner.None? || g.bevs[b].owner == Some(t)
  }

  predicate Owns(g: Group, t: nat, b: nat) {
    b < |g.bevs| && g.bevs[b].owner == Some(t) && g.bevs[b].phase.Settled?
  }

  predicate Enabled(g: Group, s: Step) {
    match s
    case Lock(t, b) => b < |g.bevs| && g.bevs[b].owner.None?
    case Unlock(t, b) => Owns(g, t, b)
    case LookAtLimit(t, b) => Owns(g, t, b) && g.bevs[b].member && g.holder.NoHolder? && !Busy(g, t)
    case StartSuspend(t, todo) => g.holder.NoHolder? && !Busy(g, t) && Lists(g, todo)
    case StartUnsuspend(t, todo) => g.holder.NoHolder? && !Busy(g, t) && Lists(g, todo)
    case Visit => !g.holder.NoHolder? && g.holder.todo != []
    case End => !g.holder.NoHolder? && g.holder.todo == []
    case StartAdd(t, b) => Owns(g, t, b) && !g.bevs[b].member && g.holder.NoHolder? && !Busy(g, t)
    case EndAdd(b) => b < |g.bevs| && g.bevs[b].phase.Adding?
    case StartRemove(t, b) => Owns(g, t, b) && g.bevs[b].member && g.holder.NoHolder? && !Busy(g, t)
    case EndRemove(b) => b < |g.bevs| && g.bevs[b].phase.Removing?
  }

  function DoVisit(g: Group): Group
    requires !g.holder.NoHolder? && g.holder.todo != [] && g.holder.todo[0] < |g.bevs|
  {
    var b := g.holder.todo[0];
    var rest := g.holder.todo[1..];
    match g.holder
    case Suspending(t, _) =>
      (if CanLock(g, t, b) then SetBev(g, b, g.bevs[b].(flagged := true)) else g).(holder := Suspending(t, rest))
    case Unsuspending(t, _, again) =>
      if CanLock(g, t, b) then SetBev(g, b, g.bevs[b].(flagged := false)).(holder := Unsuspending(t, rest, again))
      else g.(holder := Unsuspending(t, rest, true))
  }

  function Take(g: Group, s: Step): Group
    requires Inv(g) && Enabled(g, s)
  {
    match s
    case Lock(t, b) => SetBev(g, b, g.bevs[b].(owner := Some(t)))
    case Unlock(t, b) => SetBev(g, b, g.bevs[b].(owner := None))
    case LookAtLimit(t, b) => if g.suspended then SetBev(g, b, g.bevs[b].(flagged := true)) else g
    case StartSuspend(t, todo) => g.(suspended := true, pending := false, holder := Suspending(t, todo))
    case StartUnsuspend(t, todo) => g.(suspended := false, holder := Unsuspending(t, todo, false))
    case Visit => DoVisit(g)
    case End => if g.holder.Suspending? then g.(holder := NoHolder)
                else g.(pending := g.holder.again, holder := NoHolder)
    case StartAdd(t, b) => SetBev(g, b, g.bevs[b].(member := true, phase := Adding(g.suspended)))
    case EndAdd(b) => SetBev(g, b,
                             g.bevs[b].(flagged := g.bevs[b].flagged || g.bevs[b].phase.captured, phase := Settled))
    case StartRemove(t, b) => SetBev(g, b, g.bevs[b].(member := false, phase := Removing))
    case EndRemove(b) => SetBev(g, b, g.bevs[b].(flagged := false, phase := Settled))
  }

  // ---- The invariant ----

  // Somebody will come back for b: the group is suspended, or an unsuspend is owed, or one is
  // under way that has not passed b yet, or that has found some lock taken.
  predicate Covered(g: Group, b: nat) {
    if g.holder.Unsuspending? then g.holder.again || b in g.holder.todo
    else g.suspended || g.pending
  }

  predicate Choked(x: Bev) {
    x.member && (x.flagged || x.phase == Adding(true))
  }

  predicate BevOk(g: Group, b: nat)
    requires b < |g.bevs|
  {
    var x := g.bevs[b];
    && (x.phase != Settled ==> x.owner.Some? && (g.holder.NoHolder? || x.owner != Some(g.holder.thread)))
    && (x.phase.Adding? ==> x.member)
    && (x.phase.Removing? ==> !x.member)
    && (!x.member && x.flagged ==> x.phase.Removing?)
    && (Choked(x) ==> Covered(g, b))
  }

  predicate Inv(g: Group) {
    && (g.pending ==> !g.suspended)
    && (g.holder.Suspending? ==> g.suspended)
    && (g.holder.Unsuspending? ==> !g.suspended)
    && (!g.holder.NoHolder? ==>
          forall i :: 0 <= i < |g.holder.todo| ==> g.holder.todo[i] < |g.bevs| && g.bevs[g.holder.todo[i]].member)
    && forall b :: 0 <= b < |g.bevs| ==> BevOk(g, b)
  }

  lemma VisitKeepsInv(g: Group)
    requires Inv(g) && Enabled(g, Visit)
    ensures Inv(DoVisit(g))
  {
    var todo, g' := g.holder.todo, DoVisit(g);
    assert forall i :: 0 <= i < |todo[1..]| ==> todo[1..][i] == todo[i + 1];
    forall b | 0 <= b < |g'.bevs|
      ensures BevOk(g', b)
    {
      assert BevOk(g, b);
      assert b in todo ==> b == todo[0] || b in todo[1..];
    }
  }

  lemma StepKeepsInv(g: Group, s: Step)
    requires Inv(g) && Enabled(g, s)
    ensures Inv(Take(g, s))
  {
    if s.Visit? {
      VisitKeepsInv(g);
    } else {
      var g' := Take(g, s);
      forall b | 0 <= b < |g'.bevs|
        ensures BevOk(g', b)
      {
        assert BevOk(g, b);
      }
    }
  }

  ghost predicate CanRun(g: Group, steps: seq<Step>)
    requires Inv(g)
    decreases steps
  {
    steps == [] || (Enabled(g, steps[0]) && (StepKeepsInv(g, steps[0]); CanRun(Take(g, steps[0]), steps[1..])))
  }

  ghost function Run(g: Group, steps: seq<Step>): (r: Group)
    requires Inv(g) && CanRun(g, steps)
    ensures Inv(r)
    decreases steps
  {
    if steps == [] then g
    else
      StepKeepsInv(g, steps[0]);
      Run(Take(g, steps[0]), steps[1..])
  }

  // A new group: no members, nothing locked
  function NewGroup(n: nat): (g: Group)
    ensures Inv(g)
  {
    Group(seq(n, _ => Bev(None, false, false, Settled)), false, false, NoHolder)
  }

  /** In every interleaving: pending_unsuspend means the group is not suspended, and whenever
      nobody holds the group lock, a member that is flagged, or is about to be, belongs to a
      group that is suspended or owes an unsuspend. */
  lemma NobodyIsForgotten(n: nat, steps: seq<Step>)
    requires CanRun(NewGroup(n), steps)
    ensures var g := Run(NewGroup(n), steps);
      && (g.pending ==> !g.suspended)
      && (g.holder.NoHolder? ==> forall b :: 0 <= b < |g.bevs| && Choked(g.bevs[b]) ==> g.suspended || g.pending)
      && (forall b :: 0 <= b < |g.bevs| && g.bevs[b].flagged && !g.bevs[b].member ==> g.bevs[b].phase.Removing?)
  {
    var g := Run(NewGroup(n), steps);
    forall b | 0 <= b < |g.bevs|
      ensures g.holder.NoHolder? && Choked(g.bevs[b]) ==> g.suspended || g.pending
      ensures g.bevs[b].flagged && !g.bevs[b].member ==> g.bevs[b].phase.Removing?
    {
      assert BevOk(g, b);
    }
  }

  // ---- What the steps do ----

  // The thread that takes a step, of those that hold a lock
  function Actor(g: Group, s: Step): Option<nat>
    requires Enabled(g, s)
  {
    match s
    case Lock(t, _) => Some(t)
    case Unlock(t, _) => Some(t)
    case LookAtLimit(t, _) => Some(t)
    case StartSuspend(t, _) => Some(t)
    case StartUnsuspend(t, _) => Some(t)
    case Visit => Some(g.holder.thread)
    case End => Some(g.holder.thread)
    case StartAdd(t, _) => Some(t)
    case EndAdd(b) => g.bevs[b].owner
    case StartRemove(t, _) => Some(t)
    case EndRemove(b) => g.bevs[b].owner
  }

  /** A bufferevent is only suspended or released by a thread that has its lock, or can have it. */
  lemma OnlyUnderLock(g: Group, s: Step, b: nat)
    requires Inv(g) && Enabled(g, s) && b < |g.bevs|
    ensures var g' := Take(g, s);
      && |g'.bevs| == |g.bevs|
      && (g'.bevs[b].flagged != g.bevs[b].flagged ==> g.bevs[b].owner.None? || g.bevs[b].owner == Actor(g, s))
      && (g'.bevs[b].member != g.bevs[b].member ==> g.bevs[b].owner == Actor(g, s))
  {
    assert BevOk(g, b);
  }

  /** A member that is locked while its group is suspended finds out when it looks at its limit. */
  lemma LookAtLimitDoes(g: Group, t: nat, b: nat)
    requires Inv(g) && Enabled(g, LookAtLimit(t, b))
    ensures var g' := Take(g, LookAtLimit(t, b));
      && g'.bevs[b].flagged == (g.bevs[b].flagged || g.suspended)
      && g' == g.(bevs := g.bevs[b := g.bevs[b].(flagged := g'.bevs[b].flagged)])
  {
  }

  /** An add that nothing comes between: a member of a suspended group is suspended. */
  lemma AddDoes(g: Group, t: nat, b: nat)
    requires Inv(g) && Enabled(g, StartAdd(t, b))
    ensures var g1 := Take(g, StartAdd(t, b));
      && Inv(g1) && Enabled(g1, EndAdd(b))
      && Take(g1, EndAdd(b)) ==
           g.(bevs := g.bevs[b := Bev(Some(t), true, g.bevs[b].flagged || g.suspended, Settled)])
  {
    StepKeepsInv(g, StartAdd(t, b));
  }

  // Between the two halves of an add only the lock of the group matters: what was captured is acted upon.
  lemma EndAddDoes(g: Group, b: nat)
    requires Inv(g) && Enabled(g, EndAdd(b))
    ensures Take(g, EndAdd(b)) ==
              g.(bevs := g.bevs[b := g.bevs[b].(flagged := g.bevs[b].flagged || g.bevs[b].phase.captured,
                                                phase := Settled)])
  {
  }

  /** A remove that nothing comes between: the group has no hold on the bufferevent any more. */
  lemma RemoveDoes(g: Group, t: nat, b: nat)
    requires Inv(g) && Enabled(g, StartRemove(t, b))
    ensures var g1 := Take(g, StartRemove(t, b));
      && Inv(g1) && Enabled(g1, EndRemove(b))
      && Take(g1, EndRemove(b)) == g.(bevs := g.bevs[b := Bev(Some(t), false, false, Settled)])
  {
    StepKeepsInv(g, StartRemove(t, b));
  }

  lemma LockDoes(g: Group, t: nat, b: nat)
    requires Inv(g) && b < |g.bevs|
    ensures Enabled(g, Lock(t, b)) <==> g.bevs[b].owner.None?
    ensures Enabled(g, Lock(t, b)) ==>
              var g1 := Take(g, Lock(t, b));
              && g1 == g.(bevs := g.bevs[b := g.bevs[b].(owner := Some(t))])
              && Inv(g1) && Enabled(g1, Unlock(t, b)) && Take(g1, Unlock(t, b)) == g
  {
    if Enabled(g, Lock(t, b)) {
      StepKeepsInv(g, Lock(t, b));
      assert BevOk(g, b);
    }
  }

  // With the lock of a bufferevent, and the group lock free, a thread that is not in the middle of anything can do
  // everything to it.
  lemma OwnerCanAct(g: Group, t: nat, b: nat)
    requires Inv(g) && b < |g.bevs| && g.bevs[b].owner == Some(t) && g.bevs[b].phase.Settled?
    requires g.holder.NoHolder? && !Busy(g, t)
    ensures g.bevs[b].member ==> Enabled(g, LookAtLimit(t, b)) && Enabled(g, StartRemove(t, b))
    ensures !g.bevs[b].member ==> Enabled(g, StartAdd(t, b))
    ensures Enabled(g, Unlock(t, b))
  {
  }

  // ---- Undisturbed, a suspend and an unsuspend reach everybody they can ----

  // Whoever holds the group lock gets to the end of what they are doing.
  function FinishVisits(g: Group): (r: Group)
    requires Inv(g) && !g.holder.NoHolder?
    ensures Inv(r) && r.holder.NoHolder? && r.suspended == g.suspended
    decreases |g.holder.todo|
  {
    if g.holder.todo == [] then
      StepKeepsInv(g, End);
      Take(g, End)
    else
      VisitKeepsInv(g);
      FinishVisits(DoVisit(g))
  }

  // The members still to be visited that can be locked are suspended, or released, and no other.
  lemma {:induction false} FinishVisitsDoes(g: Group)
    requires Inv(g) && !g.holder.NoHolder?
    ensures var r, h := FinishVisits(g), g.holder;
      && |r.bevs| == |g.bevs|
      && (forall b :: 0 <= b < |g.bevs| ==>
            r.bevs[b] == if b in h.todo && CanLock(g, h.thread, b) then g.bevs[b].(flagged := h.Suspending?)
                         else g.bevs[b])
      && (h.Suspending? ==> r.pending == g.pending)
      && (h.Unsuspending? ==>
            (r.pending <==> h.again || exists b :: 0 <= b < |g.bevs| && b in h.todo && !CanLock(g, h.thread, b)))
    decreases |g.holder.todo|
  {
    var todo, t := g.holder.todo, g.holder.thread;
    if todo != [] {
      VisitKeepsInv(g);
      var g1 := DoVisit(g);
      FinishVisitsDoes(g1);
      assert forall b :: b in todo <==> b == todo[0] || b in todo[1..];
      assert forall b :: 0 <= b < |g.bevs| ==> (CanLock(g1, t, b) <==> CanLock(g, t, b));
    }
  }

  /** An undisturbed suspend suspends every member whose lock can be had, and nobody else, and cancels an
      unsuspend that is owed. */
  lemma SuspendReaches(g: Group, t: nat, todo: seq<nat>)
    requires Inv(g) && Enabled(g, StartSuspend(t, todo))
    ensures Inv(Take(g, StartSuspend(t, todo)))
    ensures var r := FinishVisits(Take(g, StartSuspend(t, todo)));
      && r.suspended && !r.pending && |r.bevs| == |g.bevs|
      && forall b :: 0 <= b < |g.bevs| ==>
           r.bevs[b] == if g.bevs[b].member && g.bevs[b].owner in {None, Some(t)} then g.bevs[b].(flagged := true)
                        else g.bevs[b]
  {
    StepKeepsInv(g, StartSuspend(t, todo));
    FinishVisitsDoes(Take(g, StartSuspend(t, todo)));
  }

  /** An undisturbed unsuspend releases every member whose lock can be had, and nobody else; another one is owed
      exactly if some member was locked. */
  lemma UnsuspendReaches(g: Group, t: nat, todo: seq<nat>)
    requires Inv(g) && Enabled(g, StartUnsuspend(t, todo))
    ensures Inv(Take(g, StartUnsuspend(t, todo)))
    ensures var r := FinishVisits(Take(g, StartUnsuspend(t, todo)));
      && !r.suspended && |r.bevs| == |g.bevs|
      && (r.pending <==> exists b :: 0 <= b < |g.bevs| && g.bevs[b].member && g.bevs[b].owner !in {None, Some(t)})
      && forall b :: 0 <= b < |g.bevs| ==>
           r.bevs[b] == if g.bevs[b].member && g.bevs[b].owner in {None, Some(t)} then g.bevs[b].(flagged := false)
                        else g.bevs[b]
  {
    StepKeepsInv(g, StartUnsuspend(t, todo));
    var g1 := Take(g, StartUnsuspend(t, todo));
    FinishVisitsDoes(g1);
    assert forall b :: 0 <= b < |g.bevs| ==> (b in todo <==> g.bevs[b].member);
    assert forall b :: 0 <= b < |g.bevs| ==> (CanLock(g1, t, b) <==> CanLock(g, t, b));
  }

  /** When no member is locked by another thread, an unsuspend leaves no member flagged and
      owes nothing. */
  lemma UnsuspendReleases(g: Group, t: nat, todo: seq<nat>)
    requires Inv(g) && Enabled(g, StartUnsuspend(t, todo))
    requires forall b :: 0 <= b < |g.bevs| && g.bevs[b].member ==> CanLock(g, t, b)
    ensures Inv(Take(g, StartUnsuspend(t, todo)))
    ensures var g' := FinishVisits(Take(g, StartUnsuspend(t, todo)));
      && !g'.suspended && !g'.pending
      && forall b :: 0 <= b < |g'.bevs| && g'.bevs[b].member ==> !g'.bevs[b].flagged
  {
    UnsuspendReaches(g, t, todo);
  }

  // ---- Nobody has to wait for the group for ever ----

  // The members of the group
  function Members(g: Group, n: nat): (todo: seq<nat>)
    requires n <= |g.bevs|
    ensures forall b: nat :: b in todo <==> b < n && g.bevs[b].member
  {
    if n == 0 then [] else Members(g, n - 1) + if g.bevs[n - 1].member then [n - 1] else []
  }

  // A number that no thread with a lock has
  function Stranger(g: Group, n: nat): (t: nat)
    requires n <= |g.bevs|
    ensures forall b :: 0 <= b < n ==> g.bevs[b].owner != Some(t)
    ensures forall t', b :: t' >= t && 0 <= b < n ==> g.bevs[b].owner != Some(t')
  {
    if n == 0 then 0
    else
      var t, o := Stranger(g, n - 1), g.bevs[n - 1].owner;
      if o.Some? && o.value >= t then o.value + 1 else t
  }

  /** While nobody holds the group lock, a thread without other locks, such as the refill callback's, can suspend
      or unsuspend the group. */
  lemma GroupCanAct(g: Group)
    requires Inv(g) && g.holder.NoHolder?
    ensures var t, todo := Stranger(g, |g.bevs|), Members(g, |g.bevs|);
      Enabled(g, StartSuspend(t, todo)) && Enabled(g, StartUnsuspend(t, todo))
  {
    var todo := Members(g, |g.bevs|);
    assert forall i :: 0 <= i < |todo| ==> todo[i] in todo;
  }
}
