/**
 The queues of an event_base: inserted events, active events by priority, the timeout heap and
 the common-timeout lists, with the flags and counters that go with them. The heap is kept as a
 list of its elements; only its top is ever looked at.
 */
module EventQueues {
  import opened EventLists
  import opened Wrappers

  class Base {
    var ev: Events
    var qs: Queues
    var count: int
    var countActive: int
    // The timers of the common-timeout lists, and the event whose callback is running
    var timers: seq<nat>
    var running: Option<nat>

    /** Flags agree with queue membership, the counters are what they should be, and the
        common-timeout lists are in order. */
    ghost predicate Core()
      reads this`ev, this`qs, this`count, this`countActive
    {
      && Agree(ev, qs) && InRange(ev, qs) && count == Memberships(ev) && countActive == SumLen(qs.active)
      && AllSorted(ev, qs.common)
    }

    /** event_base_new with a number of priorities */
    constructor (priorities: nat)
      requires priorities > 0
      ensures Valid() && ev == map[] && timers == [] && running.None? && |qs.active| == priorities
              && count == countActive == 0
    {
      ev, count, countActive, timers, running := map[], 0, 0, [], None;
      qs := Queues([], EmptyQueues(priorities), [], []);
      new;
      SumLenEmpty(priorities);
    }

    /** event_assign */
    method Assign(id: nat, pri: nat, io: bool, persist: bool)
      requires Valid() && id !in ev && pri < |qs.active|
      modifies this`ev
      ensures Valid() && id in ev && ev == old(ev)[id := ev[id]]
      ensures ev[id].pri == pri && !ev[id].internal && ev[id].io == io && ev[id].persist == persist
      ensures !ev[id].inserted && !ev[id].active && !ev[id].timeout && ev[id].delay.None?
    {
      hide Agree, AllSorted, AllTimely, TimersOk, Memberships, InRange;
      AddedAgree(ev, qs, id, NewEvent(pri, false, io, persist), qs.common);
      AddedTimely(ev, qs.common, timers, running, id, NewEvent(pri, false, io, persist));
      ev := ev[id := NewEvent(pri, false, io, persist)];
    }

    /** event_base_init_common_timeout: a new list, with an internal event for its timer */
    method NewCommon(t: nat)
      requires Valid() && t !in ev && |qs.active| > 0
      modifies this
      ensures Valid() && t in ev && ev == old(ev)[t := ev[t]] && timers == old(timers) + [t]
      ensures ev[t].pri == 0 && ev[t].internal && !ev[t].io && !ev[t].persist
      ensures !ev[t].inserted && !ev[t].active && !ev[t].timeout
      ensures qs == old(qs).(common := old(qs.common) + [[]]) && running == old(running)
    {
      hide Agree, AllSorted, AllTimely, TimersOk, Memberships, InRange;
      var e := NewEvent(0, true, false, false);
      AddedAgree(ev, qs, t, e, qs.common + [[]]);
      AddedTimely(ev, qs.common, timers, running, t, e);
      TimerAdded(ev[t := e], qs.common, timers, running, t);
      ev := ev[t := e];
      qs := qs.(common := qs.common + [[]]);
      timers := timers + [t];
    }

    // event_queue_insert and event_queue_remove: the flag and the count
    method SetFlag(id: nat, q: Queue, on: bool)
      requires id in ev && Has(ev[id], q) != on && count == Memberships(ev)
      modifies this`ev, this`count
      ensures ev == old(ev)[id := Mark(old(ev)[id], q, on)] && count == Memberships(ev)
      ensures SameElsewhere(old(ev), ev, id)
    {
      MarkMemberships(ev, id, q, on);
      if !ev[id].internal {
        count := if on then count + 1 else count - 1;
      }
      ev := ev[id := Mark(ev[id], q, on)];
    }

    method QueueInserted(id: nat, on: bool)
      requires Core() && id in ev && ev[id].inserted != on
      modifies this`ev, this`count, this`qs
      ensures Core() && ev == old(ev)[id := Mark(old(ev)[id], Inserted, on)]
      ensures qs == old(qs).(inserted := if on then old(qs.inserted) + [id] else Without(old(qs.inserted), id))
    {
      hide Agree, Memberships, AllSorted, Without;
      AgreeInserted(ev, qs, id, on);
      ghost var was := ev;
      SetFlag(id, Inserted, on);
      AllSortedSame(was, ev, qs.common, id);
      qs := qs.(inserted := if on then qs.inserted + [id] else Without(qs.inserted, id));
    }

    method QueueActive(id: nat, on: bool)
      requires Core() && id in ev && ev[id].active != on
      modifies this`ev, this`count, this`countActive, this`qs
      ensures Core() && ev == old(ev)[id := Mark(old(ev)[id], Active, on)]
      ensures var p := ev[id].pri;
                p < |old(qs.active)|
                  && qs == old(qs).(active := old(qs.active)[p := if on then old(qs.active)[p] + [id]
                                                                  else Without(old(qs.active)[p], id)])
    {
      hide Agree, Memberships, AllSorted, Without, SumLen;
      AgreeActive(ev, qs, id, on);
      ghost var was := ev;
      SetFlag(id, Active, on);
      AllSortedSame(was, ev, qs.common, id);
      countActive := if on then countActive + 1 else countActive - 1;
      var p := ev[id].pri;
      qs := qs.(active := qs.active[p := if on then qs.active[p] + [id] else Without(qs.active[p], id)]);
    }

    // The event goes into the heap, or into its place in its common-timeout list.
    method InsertTimeout(id: nat)
      requires Core() && id in ev && !ev[id].timeout
      modifies this`ev, this`count, this`qs
      ensures Core() && ev == old(ev)[id := Mark(old(ev)[id], Timeout, true)]
      ensures InRange(ev, old(qs)) && qs == SetTimeoutList(old(qs), ev[id].common, TimeoutList(qs, ev[id].common))
      ensures HeadsLater(old(ev), old(qs.common), ev, qs.common, id)
    {
      hide Agree, Memberships, AllSorted, SumLen, Sorted, SetTimeoutList, HeadsLater, SameElsewhere, InRange,
           InsertedAt;
      InRangeAt(ev, qs, id);
      var c := ev[id].common;
      var l := TimeoutList(qs, c);
      var l' := l + [id];
      ghost var k := |l|;
      if c.Some? {
        AllSortedAt(ev, qs.common, c.value);
        l', k := InsertInOrder(ev, l, id);
      } else {
        assert InsertedAt(l, l', id, k) by {
          LastPlace(l, id);
        }
      }
      InsertedKeeps(ev, qs, id, k, l');
      SetFlag(id, Timeout, true);
      qs := SetTimeoutList(qs, c, l');
    }

    method RemoveTimeout(id: nat)
      requires Core() && id in ev && ev[id].timeout
      modifies this`ev, this`count, this`qs
      ensures Core() && ev == old(ev)[id := Mark(old(ev)[id], Timeout, false)]
      ensures InRange(ev, old(qs))
              && qs == SetTimeoutList(old(qs), ev[id].common, Without(TimeoutList(old(qs), ev[id].common), id))
      ensures HeadsLater(old(ev), old(qs.common), ev, qs.common, id)
    {
      hide Agree, Memberships, AllSorted, SumLen, Sorted, SetTimeoutList, Without, HeadsLater, SameElsewhere, InRange;
      InRangeAt(ev, qs, id);
      var c := ev[id].common;
      var l' := Without(TimeoutList(qs, c), id);
      RemovedKeeps(ev, qs, id);
      SetFlag(id, Timeout, false);
      qs := SetTimeoutList(qs, c, l');
    }

    lemma CoreHas(id: nat)
      requires Core() && id in ev
      ensures Agree(ev, qs) && AllSorted(ev, qs.common) && ev[id].pri < |qs.active|
              && (ev[id].common.Some? ==> ev[id].common.value < |qs.common|)
    {
    }

    method SetFields(id: nat, e: Event)
      requires Core() && id in ev && OtherFields(ev[id], e)
      requires e.common.Some? ==> e.common.value < |qs.common|
      modifies this`ev
      ensures Core() && ev == old(ev)[id := e]
    {
      hide Agree, Memberships, AllSorted, SumLen;
      if !ev[id].timeout {
        NotListed(ev, qs, id);
      }
      AgreeDeadline(ev, qs, id, e);
      AllSortedSame(ev, ev[id := e], qs.common, id);
      ev := ev[id := e];
    }

    // The event is taken out of its timeout queue, if it is in one.
    method Unlist(id: nat)
      requires Core() && id in ev
      modifies this`ev, this`count, this`qs
      ensures Core() && ev == old(ev)[id := old(ev)[id].(timeout := false)] && qs.active == old(qs.active)
      ensures HeadsLater(old(ev), old(qs.common), ev, qs.common, id) && InNone(qs.common, id)
              && |qs.common| == |old(qs.common)|
      ensures old(ev)[id].common.None? ==> qs.common == old(qs.common)
    {
      hide Base.Core, Agree, AllSorted, HeadsLater, InNone, InRange, Memberships, SumLen, Without, SetTimeoutList,
           SameElsewhere, Sorted;
      CoreHas(id);
      UpdateSelf(ev, id);
      HeadsUpdate(ev, qs.common, id, ev[id]);
      if ev[id].timeout {
        RemoveTimeout(id);
        TimeoutListNone(old(qs), old(ev)[id].common, Without(TimeoutList(old(qs), old(ev)[id].common), id));
      }
      CoreHas(id);
      NotListed(ev, qs, id);
    }

    // The queues of events that are ready, with the heads of the timeout lists as they are
    method Inactivate(id: nat, ghost ev0: Events, ghost c0: seq<seq<nat>>)
      requires Core() && id in ev && ev[id].active && InNone(qs.common, id) && HeadsLater(ev0, c0, ev, qs.common, id)
      modifies this`ev, this`count, this`countActive, this`qs
      ensures Core() && ev == old(ev)[id := old(ev)[id].(active := false)]
      ensures qs.common == old(qs.common) && HeadsLater(ev0, c0, ev, qs.common, id)
      ensures qs.active == Inactive(old(qs.active), old(ev)[id], id)
    {
      hide Base.Core, Agree, AllSorted, HeadsLater, InNone, InRange, Memberships, SumLen, Without, SetTimeoutList,
           SameElsewhere, Sorted;
      ghost var ev1 := ev;
      CoreHas(id);
      HeadsUpdate(ev, qs.common, id, ev[id].(active := false));
      QueueActive(id, false);
      HeadsTrans(ev0, c0, ev1, qs.common, ev, qs.common, id);
    }

    /** event_del_internal */
    method DelInternal(id: nat)
      requires Core() && id in ev
      modifies this`ev, this`count, this`countActive, this`qs
      ensures Core() && ev == old(ev)[id := Cleared(old(ev)[id])]
              && qs.active == Inactive(old(qs.active), old(ev)[id], id)
      ensures HeadsLater(old(ev), old(qs.common), ev, qs.common, id) && InNone(qs.common, id)
    {
      hide Base.Core, Agree, AllSorted, HeadsLater, InNone, InRange, Memberships, SumLen, Without, SetTimeoutList,
           SameElsewhere, Sorted;
      ghost var ev0, e0 := ev, ev[id];
      Unlist(id);
      ghost var e1, e2 := e0.(timeout := false), e0.(timeout := false, active := false);
      if ev[id].active {
        Inactivate(id, ev0, old(qs.common));
      }
      UpdateTwice(ev0, id, e1, e2);
      ghost var ev2 := ev;
      assert ev == ev0[id := e2];
      CoreHas(id);
      HeadsUpdate(ev2, qs.common, id, Cleared(e0));
      if ev[id].inserted {
        QueueInserted(id, false);
      }
      UpdateTwice(ev0, id, e2, Cleared(e0));
      HeadsTrans(ev0, old(qs.common), ev2, qs.common, ev, qs.common, id);
    }

    /** event_active_nolock */
    method ActiveNolock(id: nat, due: bool)
      requires Core() && id in ev
      modifies this`ev, this`count, this`countActive, this`qs
      ensures Core() && ev == old(ev)[id := Activated(old(ev)[id], due)]
      ensures qs.common == old(qs.common) && qs.active == AtTail(old(qs.active), old(ev)[id], id)
    {
      hide Base.Core, Agree, AllSorted, InRange, Memberships, SumLen, Without, SameElsewhere, Sorted, AtTail;
      CoreHas(id);
      AtTailIs(qs.active, ev[id], id);
      ghost var ev0 := ev;
      var e := ev[id].(due := if ev[id].active then ev[id].due || due else due);
      SetFields(id, e);
      if !ev[id].active {
        QueueActive(id, true);
      }
      UpdateTwice(ev0, id, e, Activated(ev0[id], due));
    }

    // The timeout part of event_add_internal
    method SetTimeout(id: nat, deadline: int, common: Option<nat>, delay: Option<nat>)
      requires Core() && id in ev && (common.Some? ==> common.value < |qs.common|)
      modifies this`ev, this`count, this`countActive, this`qs
      ensures Core() && ev == old(ev)[id := Timed(old(ev)[id], deadline, common, delay)]
      ensures qs.active == Withdrawn(old(qs.active), old(ev)[id], id)
      ensures HeadsLater(old(ev), old(qs.common), ev, qs.common, id)
      ensures common.None? && old(ev)[id].common.None? ==> qs.common == old(qs.common)
    {
      hide Base.Core, Agree, AllSorted, HeadsLater, InNone, InRange, Memberships, SumLen, Without, SetTimeoutList,
           SameElsewhere, Sorted;
      ghost var ev0, e0, c0 := ev, ev[id], qs.common;
      Unschedule(id);
      ghost var ev1, e1, c1 := ev, ev[id], qs.common;
      var e := ev[id].(deadline := deadline, common := common, delay := delay);
      CoreHas(id);
      HeadsUpdate(ev, c1, id, e);
      SetFields(id, e);
      HeadsTrans(ev0, c0, ev1, c1, ev, c1, id);
      ghost var ev2, qs2 := ev, qs;
      InsertTimeout(id);
      TimeoutListNone(qs2, common, TimeoutList(qs, common));
      HeadsTrans(ev0, c0, ev2, c1, ev, qs.common, id);
      UpdateTwice(ev0, id, e1, e);
      UpdateTwice(ev0, id, e, Timed(e0, deadline, common, delay));
    }

    // An earlier timeout is taken back, pending or due.
    method Unschedule(id: nat)
      requires Core() && id in ev
      modifies this`ev, this`count, this`countActive, this`qs
      ensures Core() && ev ==
                old(ev)[id := old(ev)[id].(timeout := false, active := old(ev)[id].active && !old(ev)[id].due)]
      ensures qs.active == Withdrawn(old(qs.active), old(ev)[id], id)
      ensures |qs.common| == |old(qs.common)| && InNone(qs.common, id)
      ensures HeadsLater(old(ev), old(qs.common), ev, qs.common, id)
      ensures old(ev)[id].common.None? ==> qs.common == old(qs.common)
    {
      hide Base.Core, Agree, AllSorted, HeadsLater, InNone, InRange, Memberships, SumLen, Without, SetTimeoutList,
           SameElsewhere, Sorted;
      ghost var ev0, e0 := ev, ev[id];
      Unlist(id);
      if ev[id].active && ev[id].due {
        Inactivate(id, ev0, old(qs.common));
      }
      UpdateTwice(ev0, id, e0.(timeout := false), e0.(timeout := false, active := e0.active && !e0.due));
    }

    /** Besides: every common-timeout list that is not empty has its timer pending no later than
        the first deadline, or active, or running. */
    ghost predicate Valid()
      reads this
    {
      Core() && TimersOk(ev, |qs.common|, timers) && AllTimely(ev, qs.common, timers, running)
    }

    /** event_del */
    method Del(id: nat)
      requires Valid() && id in ev && id !in timers
      modifies this`ev, this`count, this`countActive, this`qs
      ensures Valid() && ev == old(ev)[id := old(ev)[id].(inserted := false, active := false, timeout := false)]
              && qs.active == Inactive(old(qs.active), old(ev)[id], id)
    {
      hide Base.Core, Agree, AllSorted, HeadsLater, InNone, InRange, Memberships, SumLen, Without, SetTimeoutList,
           Sorted, AllTimely, TimersOk;
      ghost var ev0, c0 := ev, qs.common;
      DelInternal(id);
      HeadsSize(ev0, c0, ev, qs.common, id);
      TimelyAfter(ev0, c0, timers, running, id, Cleared(ev0[id]), qs.common);
    }

    /** event_active */
    method Activate(id: nat, due: bool)
      requires Valid() && id in ev && id !in timers
      modifies this`ev, this`count, this`countActive, this`qs
      ensures Valid()
              && ev == old(ev)[id := old(ev)[id].(active := true,
                                                  due := due || (old(ev)[id].active && old(ev)[id].due))]
              && qs.active == AtTail(old(qs.active), old(ev)[id], id)
    {
      hide Base.Core, Agree, AllSorted, HeadsLater, InNone, InRange, Memberships, SumLen, Without, SetTimeoutList,
           Sorted, AllTimely, TimersOk;
      ghost var ev0, c0 := ev, qs.common;
      CoreHas(id);
      TimelyActivated(ev0, c0, timers, running, id, due);
      ActiveNolock(id, due);
    }

    // A timeout is set, and the timer of its list if it is the first one there.
    method AddTimeout(id: nat, deadline: int, common: Option<nat>, delay: Option<nat>)
      requires Valid() && id in ev && id !in timers && (common.Some? ==> common.value < |qs.common|)
      modifies this`ev, this`count, this`countActive, this`qs
      ensures Valid() && id in ev && ev[id] == Timed(old(ev)[id], deadline, common, delay) && ev.Keys == old(ev).Keys
      ensures var timer := TimerSet(qs.common, common, id, timers);
        && qs.active == Retimed(old(qs.active), old(ev), id, timer)
        && TimerFollows(old(ev), ev, id, timer)
    {
      hide Base.Core, Agree, AllSorted, HeadsLater, InNone, InRange, Memberships, SumLen, Without, SetTimeoutList,
           Sorted, AllTimely, TimersOk;
      ghost var ev0, c0 := ev, qs.common;
      SetTimeout(id, deadline, common, delay);
      HeadsSize(ev0, c0, ev, qs.common, id);
      TimelyAfter(ev0, c0, timers, running, id, Timed(ev0[id], deadline, common, delay), qs.common);
      CoreHas(id);
      if common.Some? && qs.common[common.value] != [] && qs.common[common.value][0] == id {
        ScheduleTimer(id, common.value, deadline);
      } else {
        HeadElsewhere(ev, qs, id, timers, running);
      }
    }

    // common_timeout_schedule
    method ScheduleTimer(id: nat, k: nat, deadline: int)
      requires Core() && k < |qs.common| == |timers| && qs.common[k] != [] && qs.common[k][0] == id && id in ev
               && ev[id].deadline == deadline
      requires TimersOk(ev, |qs.common|, timers) && TimelyBut(ev, qs.common, timers, running, id)
      modifies this`ev, this`count, this`countActive, this`qs
      ensures Valid() && ev == old(ev)[timers[k] := Timed(old(ev)[timers[k]], deadline, None, None)]
              && qs.common == old(qs.common)
      ensures qs.active == Withdrawn(old(qs.active), old(ev)[timers[k]], timers[k])
    {
      hide Base.Core, Agree, AllSorted, HeadsLater, InNone, InRange, Memberships, SumLen, Without, SetTimeoutList,
           Sorted, AllTimely, TimersOk;
      CoreHas(id);
      TimersNotListed(ev, qs, timers, k);
      TimerAt(ev, |qs.common|, timers, k);
      HeadOnce(ev, qs, id, k, timers, running);
      TimerChanged(ev, qs.common, timers, running, k, Timed(ev[timers[k]], deadline, None, None));
      SetTimeout(timers[k], deadline, None, None);
    }

    // The first part of event_add_internal: an event on a descriptor is inserted if the backend takes it.
    method AddIo(id: nat, ioOk: bool) returns (ok: bool)
      requires Valid() && id in ev && id !in timers
      modifies this`ev, this`count, this`qs
      ensures Valid() && ok == (ioOk || !NeedsIo(old(ev)[id])) && (!ok ==> ev == old(ev) && qs == old(qs))
      ensures ok ==> ev == old(ev)[id := WithIo(old(ev)[id])]
      ensures qs.active == old(qs.active) && qs.common == old(qs.common)
    {
      hide Base.Core, Agree, AllSorted, HeadsLater, InNone, InRange, Memberships, SumLen, Without, SetTimeoutList,
           Sorted, AllTimely, TimersOk;
      ok := true;
      if NeedsIo(ev[id]) {
        ok := ioOk;
        if ok {
          TimelySame(ev, qs.common, timers, running, id, WithIo(ev[id]));
          QueueInserted(id, true);
        }
      }
    }

    /** event_add: `ioOk` is what the backend said to an event on a descriptor. A relative timeout
        is remembered for a persistent event. */
    method Add(id: nat, ioOk: bool, tv: Option<Interval>, now: int) returns (ok: bool)
      requires Valid() && id in ev && id !in timers
               && (tv.Some? && tv.value.common.Some? ==> tv.value.common.value < |qs.common|)
      modifies this`ev, this`count, this`countActive, this`qs
      ensures Valid() && ev.Keys == old(ev).Keys
      ensures ok <==> ioOk || !old(ev)[id].io || old(ev)[id].inserted || old(ev)[id].active
      ensures !ok ==> ev == old(ev) && qs == old(qs)
      ensures ok ==> var e, e' := old(ev)[id], ev[id];
        && (e'.inserted <==> e.inserted || (e.io && !e.active))
        && (tv.None? ==> e' == e.(inserted := e'.inserted))
        && (tv.Some? ==>
              && e'.timeout && e'.deadline == now + tv.value.length && e'.common == tv.value.common
              && (e'.active <==> e.active && !e.due)
              && (!e.persist ==> e'.delay == e.delay)
              && (e.persist ==> e'.delay == if tv.value.length > 0 then Some(tv.value.length) else None)
              && SameKind(e, e'))
      ensures ok ==> TimerFollows(old(ev), ev, id, if tv.None? then None
                                                   else TimerSet(qs.common, tv.value.common, id, timers))
      ensures ok ==>
                qs.active == if tv.None? then old(qs.active)
                             else Retimed(old(qs.active), old(ev), id, TimerSet(qs.common, tv.value.common, id, timers))
    {
      hide Base.Core, Agree, AllSorted, HeadsLater, InNone, InRange, Memberships, SumLen, Without, SetTimeoutList,
           Sorted, AllTimely, TimersOk, Retimed, TimerSet, TimerFollows, Timed;
      var e := ev[id];
      ok := AddIo(id, ioOk);
      FollowsAlone(old(ev), id, WithIo(e));
      if ok && tv.Some? {
        var i := tv.value;
        ghost var active := qs.active;
        var delay := if e.persist then (if i.length == 0 then None else Some(i.length)) else e.delay;
        AddTimeout(id, now + i.length, i.common, delay);
        RetimedIo(active, old(ev), id, TimerSet(qs.common, i.common, id, timers));
        TimedIs(e, now + i.length, i.common, delay);
        FollowsIo(old(ev), ev, id, TimerSet(qs.common, i.common, id, timers));
      }
    }

    // event_del_internal and event_active_nolock for an event whose timeout has come
    method Expire(id: nat)
      requires Valid() && id in ev && ev[id].timeout
      modifies this`ev, this`count, this`countActive, this`qs
      ensures Valid() && ev == old(ev)[id := Expired(old(ev)[id])] && |qs.common| == |old(qs.common)|
      ensures qs.active == Requeued(old(qs.active), old(ev)[id], id)
    {
      hide Base.Core, Agree, AllSorted, HeadsLater, InNone, InRange, Memberships, SumLen, Without, SetTimeoutList,
           Sorted, AllTimely, TimersOk;
      ghost var ev0, c0 := ev, qs.common;
      DelInternal(id);
      HeadsSize(ev0, c0, ev, qs.common, id);
      if id !in timers {
        TimelyAfter(ev0, c0, timers, running, id, Cleared(ev0[id]), qs.common);
        TimelyActivated(ev, qs.common, timers, running, id, true);
      } else {
        TimerDue(ev0, c0, ev, qs.common, timers, running, id);
      }
      ActiveNolock(id, true);
      UpdateTwice(ev0, id, Cleared(ev0[id]), Expired(ev0[id]));
    }

    // min_heap_top
    method Top() returns (r: Option<nat>)
      requires Core()
      ensures r.None? ==> forall id :: id in ev && ev[id].timeout ==> ev[id].common.Some?
      ensures r.Some? ==> r.value in ev && ev[r.value].timeout && ev[r.value].common.None?
      ensures r.Some? ==>
                forall id ::
                  id in ev && ev[id].timeout && ev[id].common.None? ==> ev[r.value].deadline <= ev[id].deadline
    {
      var heap := qs.heap;
      HeapIs(ev, qs);
      hide Base.Core, Agree;
      if heap == [] {
        return None;
      }
      var top := heap[0];
      for i := 1 to |heap|
        invariant top in heap && forall j :: 0 <= j < i ==> ev[top].deadline <= ev[heap[j]].deadline
      {
        if ev[heap[i]].deadline < ev[top].deadline {
          top := heap[i];
        }
      }
      r := Some(top);
    }

    /** timeout_process: exactly the events of the heap whose time has come become active, the
        earliest first. */
    method TimeoutProcess(now: int) returns (ghost fired: seq<nat>)
      requires Valid()
      modifies this`ev, this`count, this`countActive, this`qs
      ensures Valid() && ev.Keys == old(ev).Keys
      ensures forall id :: id in ev ==>
                var e := old(ev)[id];
                ev[id] == if e.timeout && e.common.None? && e.deadline <= now
                          then e.(inserted := false, active := true, timeout := false, due := true) else e
      ensures Fires(fired, old(ev), None, now) && qs.active == RequeuedAll(old(qs.active), old(ev), fired)
      ensures QueuedBehind(old(qs.active), qs.active, old(ev), fired)
    {
      ghost var ev0 := ev;
      assert Agree(ev0, qs) && InRange(ev0, qs);
      hide Base.Core, Agree, InRange, TimersOk, AllTimely, Firing, Fires, Earliest, RequeuedAll, Requeued, QueuedBehind;
      fired := [];
      FiringStart(ev, None, now);
      QueuesStart(qs.active, ev);
      while true
        invariant Valid() && ev0 == old(ev) && Firing(ev0, ev, None, now, fired)
        invariant qs.active == RequeuedAll(old(qs.active), ev0, fired)
        decreases Timeouts(ev)
      {
        CoreOf();
        var top := Top();
        if top.None? || ev[top.value].deadline > now {
          break;
        }
        ghost var ev1 := ev;
        TopIsEarliest(ev, top.value);
        Expire(top.value);
        FiringStep(ev0, ev1, None, now, fired, top.value, old(qs.active));
        fired := fired + [top.value];
      }
      FiringDone(ev0, ev, None, now, fired);
      FiredQueue(ev0, old(qs), fired, None, now);
    }

    lemma CoreOf()
      requires Valid()
      ensures Core()
    {
    }

    /** common_timeout_callback, up to its return: exactly the events of the list whose time has
        come become active, and the timer is set for the first one left. */
    method CommonCallback(k: nat, now: int) returns (ghost fired: seq<nat>)
      requires Valid() && k < |timers| && running == Some(timers[k])
      modifies this`ev, this`count, this`countActive, this`qs, this`running
      ensures Valid() && running.None? && ev.Keys == old(ev).Keys
      ensures forall id :: id in ev && id != timers[k] ==>
                var e := old(ev)[id];
                ev[id] == if e.timeout && e.common == Some(k) && e.deadline <= now
                          then e.(inserted := false, active := true, timeout := false, due := true) else e
      ensures k < |qs.common| && (qs.common[k] != [] ==> AtHead(ev, timers[k], qs.common[k][0]))
      ensures timers[k] in ev && if qs.common[k] == [] then ev[timers[k]] == old(ev)[timers[k]]
                                 else Rescheduled(old(ev)[timers[k]], ev[timers[k]])
      ensures Fires(fired, old(ev), Some(k), now) && timers[k] in old(ev)
      ensures var a := RequeuedAll(old(qs.active), old(ev), fired);
              qs.active == if qs.common[k] == [] then a else Withdrawn(a, old(ev)[timers[k]], timers[k])
    {
      hide Base.Core, TimersOk, AllTimely, Agree, AllSorted, Firing, Earliest, RequeuedAll, Requeued, Withdrawn;
      ghost var ev0 := ev;
      TimersSize(ev, qs.common, timers, running);
      TimerAt(ev, |qs.common|, timers, k);
      fired := [];
      FiringStart(ev, Some(k), now);
      QueuesStart(qs.active, ev);
      while true
        invariant Valid() && ev0 == old(ev) && Firing(ev0, ev, Some(k), now, fired) && k < |qs.common| == |timers|
        invariant running == old(running) && qs.active == RequeuedAll(old(qs.active), ev0, fired)
        decreases Timeouts(ev)
      {
        CoreOf();
        if qs.common[k] == [] {
          break;
        }
        var id := qs.common[k][0];
        HeadIs(k);
        HeadEarliest(k);
        if ev[id].deadline > now {
          break;
        }
        ghost var ev1 := ev;
        Expire(id);
        FiringStep(ev0, ev1, Some(k), now, fired, id, old(qs.active));
        fired := fired + [id];
      }
      NoneLeft(k, now);
      FiringDone(ev0, ev, Some(k), now, fired);
      TimerNotDue(ev0, ev, k, now, fired, timers[k]);
      if qs.common[k] != [] {
        var id := qs.common[k][0];
        HeadIs(k);
        TimelyWeaker(ev, qs.common, timers, running, id);
        TimerAt(ev, |qs.common|, timers, k);
        ScheduleTimer(id, k, ev[id].deadline);
      }
      CallbackOver(ev, qs.common, timers, k);
      running := None;
    }

    // The list is in order, so its head is the earliest.
    lemma HeadEarliest(k: nat)
      requires Core() && k < |qs.common| && qs.common[k] != [] && qs.common[k][0] in ev
      ensures Earliest(ev, Some(k), qs.common[k][0])
    {
      hide Memberships, SumLen;
      var l := qs.common[k];
      assert Lists(l, TimeoutSet(ev, Some(k))) && Sorted(ev, l);
      forall id | id in ev && ev[id].timeout && ev[id].common == Some(k) ensures ev[l[0]].deadline <= ev[id].deadline {
        assert id in TimeoutSet(ev, Some(k));
        var j :| 0 <= j < |l| && l[j] == id;
      }
    }

    lemma HeadIs(k: nat)
      requires Core() && k < |qs.common| && qs.common[k] != []
      ensures var id := qs.common[k][0]; id in ev && ev[id].timeout && ev[id].common == Some(k)
    {
      MemberOf(ev, qs, k, 0);
    }

    // The list is in order: with its head not due, nothing in it is.
    lemma NoneLeft(k: nat, now: int)
      requires Core() && k < |qs.common|
               && (qs.common[k] != [] ==> qs.common[k][0] in ev && ev[qs.common[k][0]].deadline > now)
      ensures forall id :: id in ev && ev[id].timeout && ev[id].common == Some(k) ==> ev[id].deadline > now
    {
      hide Memberships, SumLen;
      assert Lists(qs.common[k], TimeoutSet(ev, Some(k))) && Sorted(ev, qs.common[k]);
      forall id | id in ev && ev[id].timeout && ev[id].common == Some(k) ensures ev[id].deadline > now {
        assert id in TimeoutSet(ev, Some(k));
        var j :| 0 <= j < |qs.common[k]| && qs.common[k][j] == id;
      }
    }

    /** One round of event_process_active_single_queue, up to the callback: the event that has been
        active longest is taken off the queue, and all queues unless it is persistent. */
    method ProcessOne(p: nat) returns (id: nat)
      requires Valid() && running.None? && p < |qs.active| && qs.active[p] != []
      modifies this`ev, this`count, this`countActive, this`qs, this`running
      ensures Valid() && running == Some(id) && id == old(qs.active)[p][0] && id in old(ev)
      ensures ev == old(ev)[id := if old(ev)[id].persist then old(ev)[id].(active := false)
                                  else old(ev)[id].(inserted := false, active := false, timeout := false)]
      ensures qs.active == old(qs.active)[p := old(qs.active)[p][1..]]
    {
      id := qs.active[p][0];
      ActiveMember(ev, qs, p);
      hide Base.Core, Agree, AllSorted, HeadsLater, InNone, InRange, Memberships, SumLen, Without, SetTimeoutList,
           Sorted, AllTimely, TimersOk, Inactive;
      if ev[id].persist {
        TimersPlain(ev, |qs.common|, timers, id);
        TimelySame(ev, qs.common, timers, running, id, ev[id].(active := false));
        QueueActive(id, false);
      } else {
        TakeOff(id);
      }
      RunningKeeps(ev, qs.common, timers, id);
      running := Some(id);
    }

    // event_del_internal for an event that is about to run
    method TakeOff(id: nat)
      requires Valid() && running.None? && id in ev && ev[id].active
      modifies this`ev, this`count, this`countActive, this`qs
      ensures Core() && ev == old(ev)[id := Cleared(old(ev)[id])]
              && qs.active == Inactive(old(qs.active), old(ev)[id], id)
      ensures TimersOk(ev, |qs.common|, timers) && AllTimely(ev, qs.common, timers, Some(id))
    {
      hide Base.Core, Agree, AllSorted, HeadsLater, InNone, InRange, Memberships, SumLen, Without, SetTimeoutList,
           Sorted, AllTimely, TimersOk, Inactive;
      ghost var ev0, c0 := ev, qs.common;
      DelInternal(id);
      HeadsSize(ev0, c0, ev, qs.common, id);
      if id !in timers {
        TimelyAfter(ev0, c0, timers, running, id, Cleared(ev0[id]), qs.common);
        RunningKeeps(ev, qs.common, timers, id);
      } else {
        TimerRuns(ev0, c0, ev, qs.common, timers, id);
      }
    }

    /** event_persist_closure: a persistent timeout is set again, an interval after it was due, or
        after now if that has passed or it was not for the timeout that the event fired. An event that
        its timeout took off its descriptor is inserted again. */
    method Reschedule(id: nat, ioOk: bool, now: int) returns (ok: bool)
      requires Valid() && running == Some(id) && id in ev && id !in timers && ev[id].persist && ev[id].delay.Some?
      modifies this`ev, this`count, this`countActive, this`qs
      ensures Valid() && ev.Keys == old(ev).Keys
      ensures ok <==> ioOk || !old(ev)[id].io || old(ev)[id].inserted || old(ev)[id].active
      ensures !ok ==> ev == old(ev) && qs == old(qs)
      ensures ok ==> var e, e' := old(ev)[id], ev[id];
        && (e'.inserted <==> e.inserted || (e.io && !e.active)) && (e'.active <==> e.active && !e.due)
        && e'.timeout && e'.deadline == RunAt(e, now) && e'.common == e.common && e'.delay == e.delay && SameKind(e, e')
      ensures ok ==> TimerFollows(old(ev), ev, id, TimerSet(qs.common, ev[id].common, id, timers))
      ensures ok ==>
                qs.active == Retimed(old(qs.active), old(ev), id, TimerSet(qs.common, ev[id].common, id, timers))
    {
      hide Base.Core, Agree, AllSorted, HeadsLater, InNone, InRange, Memberships, SumLen, Without, SetTimeoutList,
           Sorted, AllTimely, TimersOk, Retimed, TimerSet, TimerFollows, Timed;
      CoreHas(id);
      var e := ev[id];
      var runAt := (if e.due then e.deadline else now) + e.delay.value;
      if runAt < now {
        runAt := now + e.delay.value;
      }
      ok := AddIo(id, ioOk);
      if ok {
        AddTimeout(id, runAt, e.common, e.delay);
        RetimedIo(old(qs.active), old(ev), id, TimerSet(qs.common, e.common, id, timers));
        TimedIs(e, runAt, e.common, e.delay);
        FollowsIo(old(ev), ev, id, TimerSet(qs.common, e.common, id, timers));
      }
    }

    // The callback of an event that is no timer returns.
    method FinishCallback()
      requires Valid() && running.Some? && running.value !in timers
      modifies this`running
      ensures Valid() && running.None?
    {
      hide Base.Core;
      running := None;
    }

    /** timeout_correct, when the clock was set back by `off`: every pending timeout is moved by as
        much. */
    method Correct(off: nat)
      requires Valid()
      modifies this`ev
      ensures Valid() && ev.Keys == old(ev).Keys
      ensures forall id :: id in ev ==>
                var e := old(ev)[id]; ev[id] == if e.timeout then e.(deadline := e.deadline - off) else e
    {
      hide Agree, AllSorted, AllTimely, TimersOk, Memberships, InRange;
      ShiftedAgree(ev, qs, off);
      forall i | 0 <= i < |qs.common| && qs.common[i] != []
        ensures qs.common[i][0] in ev && ev[qs.common[i][0]].timeout {
        MemberOf(ev, qs, i, 0);
      }
      ShiftedTimely(ev, qs.common, timers, running, off);
      ev := Shifted(ev, off);
    }
  }

  // ---- Deferred callbacks ----

  const MAX_DEFERRED := 16

  class DeferredQueue {
    var list: seq<nat>
    var queued: set<nat>
    var activeCount: int

    ghost predicate Valid()
      reads this
    {
      Lists(list, queued) && activeCount == |list|
    }

    constructor ()
      ensures Valid() && list == []
    {
      list, queued, activeCount := [], {}, 0;
    }

    /** event_deferred_cb_schedule */
    method Schedule(cb: nat)
      requires Valid()
      modifies this
      ensures Valid() && list == if cb in old(list) then old(list) else old(list) + [cb]
    {
      if cb !in queued {
        ListsAppend(list, queued, cb);
        queued := queued + {cb};
        list := list + [cb];
        activeCount := activeCount + 1;
      }
    }

    /** event_deferred_cb_cancel */
    method Cancel(cb: nat)
      requires Valid()
      modifies this
      ensures Valid() && cb !in list && list == if cb in old(list) then Without(old(list), cb) else old(list)
    {
      if cb in queued {
        ListsRemove(list, queued, cb);
        list := Without(list, cb);
        activeCount := activeCount - 1;
        queued := queued - {cb};
      }
    }

    // What one callback schedules when it runs
    method RunCallback(schedules: seq<nat>)
      requires Valid()
      modifies this
      ensures Valid() && list == Scheduled(old(list), schedules)
    {
      hide Lists;
      assert schedules[0..] == schedules;
      for i := 0 to |schedules|
        invariant Valid() && Scheduled(list, schedules[i..]) == Scheduled(old(list), schedules)
      {
        assert schedules[i..][0] == schedules[i] && schedules[i..][1..] == schedules[i + 1..];
        Schedule(schedules[i]);
      }
    }

    /** event_process_deferred_callbacks: at most sixteen, in the order in which they were
        scheduled, whatever the callbacks schedule. */
    method Process(schedules: seq<seq<nat>>) returns (ran: seq<nat>)
      requires Valid() && |schedules| >= MAX_DEFERRED
      modifies this
      ensures Valid() && Round(ran, list) == Rounds(old(list), schedules, MAX_DEFERRED)
      ensures |ran| <= MAX_DEFERRED && (list == [] || |ran| == MAX_DEFERRED)
      ensures old(list) <= ran + list && NoneLost(Round(ran, list), schedules)
      ensures NoneElse(old(list), Round(ran, list), schedules)
    {
      RoundsNoneElse(list, schedules, MAX_DEFERRED);
      hide Lists, Scheduled, Left, NoneLost, NoneElse, Rounds;
      RoundsInOrder(list, schedules, MAX_DEFERRED);
      RoundsLoseNone(list, schedules, MAX_DEFERRED);
      LeftStart(list, schedules, MAX_DEFERRED);
      ran := [];
      while list != [] && |ran| < MAX_DEFERRED
        invariant Valid() && |ran| <= MAX_DEFERRED && Left(old(list), schedules, MAX_DEFERRED, ran, list)
        decreases MAX_DEFERRED - |ran|
      {
        LeftNext(old(list), schedules, MAX_DEFERRED, ran, list);
        TakeFirst(list, queued);
        var cb := list[0];
        queued := queued - {cb};
        list := list[1..];
        activeCount := activeCount - 1;
        RunCallback(schedules[|ran|]);
        ran := ran + [cb];
      }
      LeftEnd(old(list), schedules, MAX_DEFERRED, ran, list);
    }
  }

  // After the callbacks in ran, with list queued, the rest of the n rounds is still to come.
  ghost predicate Left(first: seq<nat>, schedules: seq<seq<nat>>, n: nat, ran: seq<nat>, list: seq<nat>)
    requires |schedules| >= n
  {
    |ran| <= n
    && var r := Rounds(list, schedules[|ran|..], n - |ran|); Round(ran + r.ran, r.list) == Rounds(first, schedules, n)
  }

  lemma LeftStart(list: seq<nat>, schedules: seq<seq<nat>>, n: nat)
    requires |schedules| >= n
    ensures Left(list, schedules, n, [], list)
  {
    hide Rounds;
    assert schedules[0..] == schedules;
    assert forall s: seq<nat> :: [] + s == s;
  }

  lemma LeftNext(first: seq<nat>, schedules: seq<seq<nat>>, n: nat, ran: seq<nat>, list: seq<nat>)
    requires |schedules| >= n && Left(first, schedules, n, ran, list) && list != [] && |ran| < n
    ensures Left(first, schedules, n, ran + [list[0]], Scheduled(list[1..], schedules[|ran|]))
  {
    hide Rounds, Scheduled;
    RoundsFirst(list, schedules, |ran|, n - |ran|);
    Behind(ran, list[0], Rounds(Scheduled(list[1..], schedules[|ran|]), schedules[|ran| + 1..], n - |ran| - 1).ran);
  }

  lemma LeftEnd(first: seq<nat>, schedules: seq<seq<nat>>, n: nat, ran: seq<nat>, list: seq<nat>)
    requires |schedules| >= n && Left(first, schedules, n, ran, list) && (list == [] || |ran| == n)
    ensures Round(ran, list) == Rounds(first, schedules, n)
  {
  }

  lemma Behind(ran: seq<nat>, cb: nat, more: seq<nat>)
    ensures ran + ([cb] + more) == ran + [cb] + more
  {
  }

  // A callback that is queued already stays where it is.
  function Scheduled(list: seq<nat>, cbs: seq<nat>): (r: seq<nat>)
    ensures list <= r
    decreases |cbs|
  {
    if cbs == [] then list else Scheduled(if cbs[0] in list then list else list + [cbs[0]], cbs[1..])
  }

  lemma {:induction false} ScheduledHas(list: seq<nat>, cbs: seq<nat>, cb: nat)
    requires cb in cbs
    ensures cb in Scheduled(list, cbs)
    decreases |cbs|
  {
    var list' := if cbs[0] in list then list else list + [cbs[0]];
    if cb == cbs[0] {
      InPrefix(list', Scheduled(list, cbs), cb);
    } else {
      ScheduledHas(list', cbs[1..], cb);
    }
  }

  // The callbacks that ran, and those still queued
  datatype Round = Round(ran: seq<nat>, list: seq<nat>)

  // At most n callbacks; the k-th one schedules schedules[k].
  function Rounds(list: seq<nat>, schedules: seq<seq<nat>>, n: nat): (r: Round)
    requires |schedules| >= n
    ensures |r.ran| <= n && (r.list == [] || |r.ran| == n)
    decreases n
  {
    if list == [] || n == 0 then Round([], list)
    else
      var r := Rounds(Scheduled(list[1..], schedules[0]), schedules[1..], n - 1);
      Round([list[0]] + r.ran, r.list)
  }

  // Everything that a callback scheduled has run after it, or is queued.
  ghost predicate NoneLost(r: Round, schedules: seq<seq<nat>>) {
    |r.ran| <= |schedules|
    && forall k, cb :: 0 <= k < |r.ran| && cb in schedules[k] ==> cb in r.ran[k + 1..] + r.list
  }

  lemma RoundsFirst(list: seq<nat>, schedules: seq<seq<nat>>, i: nat, n: nat)
    requires list != [] && 0 < n && i + n <= |schedules|
    ensures var r := Rounds(Scheduled(list[1..], schedules[i]), schedules[i + 1..], n - 1);
      Rounds(list, schedules[i..], n) == Round([list[0]] + r.ran, r.list)
  {
    assert schedules[i..][0] == schedules[i] && schedules[i..][1..] == schedules[i + 1..];
  }

  /** The callbacks run in the order in which they were scheduled. */
  lemma {:induction false} RoundsInOrder(list: seq<nat>, schedules: seq<seq<nat>>, n: nat)
    requires |schedules| >= n
    ensures var r := Rounds(list, schedules, n); list <= r.ran + r.list
    decreases n
  {
    if list != [] && n > 0 {
      hide Scheduled;
      var list' := Scheduled(list[1..], schedules[0]);
      RoundsInOrder(list', schedules[1..], n - 1);
      var r' := Rounds(list', schedules[1..], n - 1);
      PrefixTwice(list[0], list[1..], list', r'.ran, r'.list);
      assert [list[0]] + list[1..] == list;
    }
  }

  lemma PrefixTwice(x: nat, a: seq<nat>, b: seq<nat>, c: seq<nat>, d: seq<nat>)
    requires a <= b <= c + d
    ensures [x] + a <= [x] + c + d
  {
    assert [x] + c + d == [x] + (c + d);
  }

  /** None that a callback scheduled is lost. */
  lemma {:induction false} RoundsLoseNone(list: seq<nat>, schedules: seq<seq<nat>>, n: nat)
    requires |schedules| >= n
    ensures NoneLost(Rounds(list, schedules, n), schedules)
    decreases n
  {
    hide Rounds, Scheduled, NoneLost;
    if list == [] || n == 0 {
      RoundsNone(list, schedules, n);
      LoseNoneEmpty(list, schedules);
    } else {
      var list' := Scheduled(list[1..], schedules[0]);
      var r := Rounds(list', schedules[1..], n - 1);
      assert schedules[0..] == schedules;
      RoundsFirst(list, schedules, 0, n);
      RoundsLoseNone(list', schedules[1..], n - 1);
      RoundsInOrder(list', schedules[1..], n - 1);
      AllIn(list[1..], schedules[0], r.ran + r.list);
      LoseNoneFirst(list[0], r, schedules);
    }
  }

  // Whatever has run or is queued was queued at first, or a callback that ran has scheduled it.
  ghost predicate NoneElse(list: seq<nat>, r: Round, schedules: seq<seq<nat>>) {
    |r.ran| <= |schedules|
    && forall cb :: cb in r.ran + r.list ==> cb in list || exists k :: 0 <= k < |r.ran| && cb in schedules[k]
  }

  lemma {:induction false} ScheduledOnly(list: seq<nat>, cbs: seq<nat>, cb: nat)
    requires cb in Scheduled(list, cbs)
    ensures cb in list || cb in cbs
    decreases |cbs|
  {
    if cbs != [] {
      ScheduledOnly(if cbs[0] in list then list else list + [cbs[0]], cbs[1..], cb);
    }
  }

  lemma {:induction false} RoundsNoneElse(list: seq<nat>, schedules: seq<seq<nat>>, n: nat)
    requires |schedules| >= n
    ensures NoneElse(list, Rounds(list, schedules, n), schedules)
    decreases n
  {
    if list != [] && n > 0 {
      var list' := Scheduled(list[1..], schedules[0]);
      var r', r := Rounds(list', schedules[1..], n - 1), Rounds(list, schedules, n);
      RoundsNoneElse(list', schedules[1..], n - 1);
      forall cb | cb in r.ran + r.list
        ensures cb in list || exists k :: 0 <= k < |r.ran| && cb in schedules[k] {
        if cb != list[0] {
          assert cb in r'.ran + r'.list;
          if cb in list' {
            ScheduledOnly(list[1..], schedules[0], cb);
          } else {
            var k :| 0 <= k < |r'.ran| && cb in schedules[1..][k];
            assert cb in schedules[k + 1];
          }
        }
      }
    }
  }

  lemma RoundsNone(list: seq<nat>, schedules: seq<seq<nat>>, n: nat)
    requires |schedules| >= n && (list == [] || n == 0)
    ensures Rounds(list, schedules, n) == Round([], list)
  {
  }

  lemma LoseNoneEmpty(list: seq<nat>, schedules: seq<seq<nat>>)
    ensures NoneLost(Round([], list), schedules)
  {
  }

  lemma AllIn(list: seq<nat>, cbs: seq<nat>, all: seq<nat>)
    requires Scheduled(list, cbs) <= all
    ensures forall cb :: cb in cbs ==> cb in all
  {
    hide Scheduled;
    forall cb | cb in cbs ensures cb in all {
      ScheduledHas(list, cbs, cb);
      InPrefix(Scheduled(list, cbs), all, cb);
    }
  }

  lemma LoseNoneFirst(x: nat, r: Round, schedules: seq<seq<nat>>)
    requires schedules != [] && NoneLost(r, schedules[1..]) && forall cb :: cb in schedules[0] ==> cb in r.ran + r.list
    ensures NoneLost(Round([x] + r.ran, r.list), schedules)
  {
    var ran := [x] + r.ran;
    forall k, cb | 0 <= k < |ran| && cb in schedules[k] ensures cb in ran[k + 1..] + r.list {
      assert ran[k + 1..] == r.ran[k..];
      if k == 0 {
        assert r.ran[0..] == r.ran;
      } else {
        assert cb in schedules[1..][k - 1];
      }
    }
  }

  lemma InPrefix(a: seq<nat>, b: seq<nat>, x: nat)
    requires a <= b && x in a
    ensures x in b
  {
    var i :| 0 <= i < |a| && a[i] == x;
    assert b[i] == x;
  }

  lemma TakeFirst(l: seq<nat>, members: set<nat>)
    requires Lists(l, members) && l != []
    ensures Lists(l[1..], members - {l[0]})
  {
    CutOut(l, 0);
    assert l[..0] + l[1..] == l[1..];
  }
}
