/**
 The A and AAAA lookups behind one evdns_getaddrinfo call, as a state machine over everything
 that can happen to them: replies, deferred callbacks, the skew timer and cancellation.

 A callback is two steps, since the lock is released in it: what it reads under the lock, and
 the rest; the user may cancel in between.
 */
module Getaddrinfo {
  import opened Wrappers

  datatype Family = V4 | V6
  datatype Addr = Addr(family: Family, value: nat)

  const EAI_NODATA := 1
  const EAI_NONAME := 2
  const EAI_FAIL := 3
  const EAI_AGAIN := 4
  const EAI_CANCEL := 5

  // What a subrequest's callback is called with
  datatype Reply = Answer(addrs: seq<Addr>) | NotExist | Failed | Cancelled

  // The request behind a subrequest: live, or with its callback scheduled (pending_cb), or
  // with its callback running, or done and its handle freed
  datatype Sub = Never | Live | Scheduled(reply: Reply) | Running(reply: Reply, sawCancel: bool) | Ran(reply: Reply)

  datatype UserCall = UserCall(err: nat, addrs: seq<Addr>)

  datatype Record = Record(
    v4: Sub, v6: Sub,
    r4: bool, r6: bool,               // ipv4_request.r and ipv6_request.r, whether not NULL
    userCb: bool,                     // user_cb, whether not NULL
    pendingResult: seq<Addr>,         // [] for NULL
    pendingError: nat,
    timer: bool,
    userCanceled: bool,
    requestDone: bool,
    calls: seq<UserCall>,             // calls of the user's callback so far
    frees: nat)

  datatype Step =
    | Reply4(reply: Reply) | Reply6(reply: Reply)
    | Begin(f: Family) | Finish(f: Family)
    | Timeout
    | UserCancel

  function Get(d: Record, f: Family): Sub { if f.V4? then d.v4 else d.v6 }
  function Other(f: Family): Family { if f.V4? then V6 else V4 }
  function Handle(d: Record, f: Family): bool { if f.V4? then d.r4 else d.r6 }
  function Put(d: Record, f: Family, s: Sub): Record { if f.V4? then d.(v4 := s) else d.(v6 := s) }
  function DropHandle(d: Record, f: Family): Record { if f.V4? then d.(r4 := false) else d.(r6 := false) }

  // evdns_cancel_request; it does nothing once the callback is scheduled.
  function CancelSub(d: Record, f: Family): Record {
    if Get(d, f).Live? then Put(d, f, Scheduled(Cancelled)) else d
  }

  function Free(d: Record): Record {
    d.(frees := d.frees + 1, timer := false, pendingResult := [])
  }

  function CallUser(d: Record, err: nat, addrs: seq<Addr>): Record {
    d.(calls := d.calls + [UserCall(err, addrs)])
  }

  // evdns_err_to_getaddrinfo_err, with EAI_NODATA for an answer without addresses
  function ErrorOf(reply: Reply): nat {
    match reply
    case Answer(addrs) => if addrs == [] then EAI_NODATA else 0
    case NotExist => EAI_NONAME
    case Failed => EAI_FAIL
    case Cancelled => EAI_FAIL
  }

  // The locked part of evdns_getaddrinfo_gotresolve
  function DoBegin(d: Record, f: Family): Record
    requires Get(d, f).Scheduled?
  {
    Put(d, f, Running(Get(d, f).reply, d.userCanceled)).(requestDone := d.requestDone || !Handle(d, Other(f)))
  }

  // A lookup is over, and its handle gone.
  function Over(d: Record, f: Family): Record
    requires Get(d, f).Running?
  {
    DropHandle(Put(d, f, Ran(Get(d, f).reply)), f)
  }

  // What comes of it: nothing, or a wait for the other lookup with an error or with addresses, or the end, perhaps
  // with a call of the user
  datatype Verdict = Pass | WaitError(err: nat) | WaitResult(addrs: seq<Addr>) | Done | DoneCall(call: UserCall)

  function Judge(d: Record, f: Family, waiting: bool, reply: Reply, sawCancel: bool): Verdict {
    var err := ErrorOf(reply);
    if reply.Cancelled? && !sawCancel then
      if waiting then Pass else Done
    else if !d.userCb then Done
    else if err != 0 then
      if waiting then WaitError(err)
      else if sawCancel then DoneCall(UserCall(EAI_CANCEL, []))
      else if d.pendingResult != [] then DoneCall(UserCall(0, d.pendingResult))
      else DoneCall(UserCall(err, []))
    else if sawCancel then
      if waiting then Pass else DoneCall(UserCall(EAI_CANCEL, []))
    else if waiting then WaitResult(reply.addrs)
    else DoneCall(UserCall(0, if f.V4? then reply.addrs + d.pendingResult else d.pendingResult + reply.addrs))
  }

  function Conclude(d: Record, v: Verdict): Record {
    match v
    case Pass => d
    case WaitError(err) => d.(timer := true, pendingError := err)
    case WaitResult(addrs) => d.(timer := true, pendingResult := addrs)
    case Done => Free(d)
    case DoneCall(call) => Free(CallUser(d, call.err, call.addrs))
  }

  // The rest of evdns_getaddrinfo_gotresolve, after which the handle is freed
  function DoFinish(d: Record, f: Family): Record
    requires Get(d, f).Running?
  {
    Conclude(Over(d, f), Judge(d, f, Handle(d, Other(f)), Get(d, f).reply, Get(d, f).sawCancel))
  }

  // evdns_getaddrinfo_timeout_cb
  function DoTimeout(d0: Record): Record {
    var d1 := d0.(timer := false);
    var d2 := if d1.r4 then CancelSub(d1, V4) else d1;
    var d3 := if d2.r6 then CancelSub(d2, V6) else d2;
    var d4 := if d3.pendingResult != [] then CallUser(d3, 0, d3.pendingResult).(pendingResult := [])
              else CallUser(d3, if d3.pendingError != 0 then d3.pendingError else EAI_AGAIN, []);
    var d5 := d4.(userCb := false);
    if !d5.r4 && !d5.r6 then Free(d5) else d5
  }

  // evdns_getaddrinfo_cancel
  function DoUserCancel(d: Record): Record {
    if d.requestDone then d
    else
      var d1 := d.(timer := false, userCanceled := true);
      var d2 := if d1.r4 then CancelSub(d1, V4) else d1;
      if d2.r6 then CancelSub(d2, V6) else d2
  }

  // The event loop runs callbacks one at a time; the user may cancel until the record is freed.
  predicate Enabled(d: Record, s: Step) {
    && d.frees == 0
    && match s
       case Reply4(reply) => d.v4.Live? && !reply.Cancelled? && Proper(reply, V4)
       case Reply6(reply) => d.v6.Live? && !reply.Cancelled? && Proper(reply, V6)
       case Begin(f) => Get(d, f).Scheduled? && !d.v4.Running? && !d.v6.Running?
       case Finish(f) => Get(d, f).Running?
       case Timeout => d.timer && !d.v4.Running? && !d.v6.Running?
       case UserCancel => true
  }

  function Take(d: Record, s: Step): Record
    requires Enabled(d, s)
  {
    match s
    case Reply4(reply) => d.(v4 := Scheduled(reply))
    case Reply6(reply) => d.(v6 := Scheduled(reply))
    case Begin(f) => DoBegin(d, f)
    case Finish(f) => DoFinish(d, f)
    case Timeout => DoTimeout(d)
    case UserCancel => DoUserCancel(d)
  }

  predicate Proper(reply: Reply, f: Family) {
    reply.Answer? ==> forall i :: 0 <= i < |reply.addrs| ==> reply.addrs[i].family == f
  }

  // As evdns_getaddrinfo returns it: at least one lookup was launched.
  function Launch(want4: bool, want6: bool): Record
    requires want4 || want6
  {
    Record(if want4 then Live else Never, if want6 then Live else Never, want4, want6,
           true, [], 0, false, false, false, [], 0)
  }

  // ---- What every step keeps ----

  predicate Outstanding(s: Sub) { s.Live? || s.Scheduled? || s.Running? }

  // The addresses a finished lookup found
  function Found(s: Sub): seq<Addr> {
    if s.Ran? && s.reply.Answer? then s.reply.addrs else []
  }

  // The error a finished lookup ended with
  function CodeOf(s: Sub): nat {
    if s.Ran? then ErrorOf(s.reply) else 0
  }

  predicate SubOk(d: Record, f: Family) {
    var s := Get(d, f);
    && Handle(d, f) == Outstanding(s)
    && (s.Scheduled? || s.Running? || s.Ran? ==> Proper(s.reply, f))
    && (s.Scheduled? && s.reply.Cancelled? ==> d.userCanceled || !d.userCb)
    && (s.Running? && s.reply.Cancelled? ==> s.sawCancel || !d.userCb)
    && (s.Running? && s.sawCancel ==> d.userCanceled)
    && (s.Ran? && s.reply.Cancelled? && !d.userCanceled ==> !d.userCb)
  }

  predicate RunOk(d: Record, f: Family) {
    Get(d, f).Running? ==>
      && (!Handle(d, Other(f)) ==> d.requestDone)
      && (d.requestDone && d.userCanceled ==> Get(d, f).sawCancel)
  }

  predicate Alive(d: Record) {
    && (Outstanding(d.v4) || Outstanding(d.v6))
    && !(d.v4.Running? && d.v6.Running?)
    && (d.timer || !d.userCb || d.requestDone || d.pendingResult != [] ==> !(Outstanding(d.v4) && Outstanding(d.v6)))
    && (d.requestDone ==> d.v4.Running? || d.v6.Running?)
    && (d.userCb ==> d.calls == [])
    && (!d.userCb ==> |d.calls| == 1 && !d.timer)
    && RunOk(d, V4) && RunOk(d, V6)
    && (d.pendingError != 0 ==> d.pendingError in {CodeOf(d.v4), CodeOf(d.v6)})
    && (d.pendingResult != [] ==> d.userCb && d.pendingResult == Found(d.v4) + Found(d.v6))
    && (d.userCb && !d.userCanceled && !(Outstanding(d.v4) && Outstanding(d.v6)) ==>
          d.pendingResult == Found(d.v4) + Found(d.v6))
  }

  // How it ends, when neither the user nor the timer cut it short
  predicate Outcome(d: Record) {
    && !Outstanding(d.v4) && !Outstanding(d.v6) && |d.calls| == 1
    && (d.userCb && d.userCanceled ==> d.calls[0] == UserCall(EAI_CANCEL, []))
    && (d.userCb && !d.userCanceled ==>
          if Found(d.v4) + Found(d.v6) != [] then d.calls[0] == UserCall(0, Found(d.v4) + Found(d.v6))
          else d.calls[0].err != 0 && d.calls[0].addrs == [])
  }

  predicate V4First(addrs: seq<Addr>) {
    forall i, j :: 0 <= i < j < |addrs| && addrs[j].family == V4 ==> addrs[i].family == V4
  }

  predicate Inv(d: Record) {
    && SubOk(d, V4) && SubOk(d, V6)
    && (forall i :: 0 <= i < |d.calls| ==> V4First(d.calls[i].addrs))
    && d.frees <= 1
    && if d.frees == 0 then Alive(d) else Outcome(d) && !d.timer
  }

  // The rest of a callback changes only what is kept for later, the calls and the timer.
  lemma ConcludeFrame(d: Record, v: Verdict)
    ensures var d' := Conclude(d, v);
      && d'.v4 == d.v4 && d'.v6 == d.v6 && d'.r4 == d.r4 && d'.r6 == d.r6
      && d'.userCb == d.userCb && d'.userCanceled == d.userCanceled && d'.requestDone == d.requestDone
  {
    match v
    case Pass =>
    case WaitError(_) =>
    case WaitResult(_) =>
    case Done =>
    case DoneCall(_) =>
  }

  lemma ConcludeEnds(d: Record, v: Verdict)
    requires v.Done? || v.DoneCall?
    ensures var d' := Conclude(d, v);
      && d'.frees == d.frees + 1 && !d'.timer
      && d'.calls == if v.Done? then d.calls else d.calls + [v.call]
  {
  }

  lemma FinishKeeps(d: Record, f: Family)
    requires Get(d, f).Running?
    ensures var d' := DoFinish(d, f);
      && Get(d', f) == Ran(Get(d, f).reply) && Get(d', Other(f)) == Get(d, Other(f))
      && !Handle(d', f) && Handle(d', Other(f)) == Handle(d, Other(f))
      && d'.userCb == d.userCb && d'.userCanceled == d.userCanceled && d'.requestDone == d.requestDone
  {
    ConcludeFrame(Over(d, f), Judge(d, f, Handle(d, Other(f)), Get(d, f).reply, Get(d, f).sawCancel));
    hide Conclude, Judge;
  }

  lemma ReplyKeepsInv(d: Record, s: Step)
    requires Inv(d) && Enabled(d, s) && (s.Reply4? || s.Reply6?)
    ensures Inv(Take(d, s))
  {
  }

  lemma BeginKeepsInv(d: Record, f: Family)
    requires Inv(d) && Enabled(d, Begin(f))
    ensures Inv(DoBegin(d, f))
  {
  }

  lemma UserCancelKeepsInv(d: Record)
    requires Inv(d) && Enabled(d, UserCancel)
    ensures Inv(DoUserCancel(d))
  {
  }

  /** evdns_getaddrinfo_cancel: unless the last callback has begun, the timer is off and no lookup is left to
      itself; a lookup whose callback is scheduled or running, and everything else, is as before. */
  lemma UserCancelDoes(d: Record)
    requires Inv(d) && d.frees == 0
    ensures d.requestDone ==> DoUserCancel(d) == d
    ensures !d.requestDone ==>
              var d' := DoUserCancel(d);
              && d'.userCanceled && !d'.timer
              && d'.v4 == (if d.v4.Live? then Scheduled(Cancelled) else d.v4)
              && d'.v6 == (if d.v6.Live? then Scheduled(Cancelled) else d.v6)
              && d'.(v4 := d.v4, v6 := d.v6, userCanceled := d.userCanceled, timer := d.timer) == d
  {
  }

  // A callback begins: it notes whether the user has cancelled, and whether it is the last one.
  lemma BeginDoes(d: Record, f: Family)
    requires Inv(d) && Enabled(d, Begin(f))
    ensures var d' := DoBegin(d, f);
      && Get(d', f) == Running(Get(d, f).reply, d.userCanceled) && Get(d', Other(f)) == Get(d, Other(f))
      && (d'.requestDone <==> !Outstanding(Get(d, Other(f))))
      && d'.(v4 := d.v4, v6 := d.v6, requestDone := d.requestDone) == d
  {
  }

  /** The first of two lookups finishes: what it found, or the code of its error, is kept, and the timer is armed for
      the other one, unless the user has cancelled and there is nothing to report. */
  lemma FinishFirstDoes(d: Record, f: Family)
    requires Inv(d) && Enabled(d, Finish(f)) && Handle(d, Other(f))
    ensures var d', reply := DoFinish(d, f), Get(d, f).reply;
      var good := reply.Answer? && reply.addrs != [];
      && Get(d', f) == Ran(reply) && Get(d', Other(f)) == Get(d, Other(f)) && !Handle(d', f) && Handle(d', Other(f))
      && d'.calls == [] && d'.frees == 0 && d'.userCb && d'.userCanceled == d.userCanceled
      && d'.timer == (d.timer || !good || !Get(d, f).sawCancel)
      && d'.pendingResult == (if good && !Get(d, f).sawCancel then reply.addrs else d.pendingResult)
      && (good ==> d'.pendingError == d.pendingError)
      && (reply == Answer([]) ==> d'.pendingError == EAI_NODATA)
      && (reply == NotExist ==> d'.pendingError == EAI_NONAME)
      && (reply == Failed || reply == Cancelled ==> d'.pendingError == EAI_FAIL)
  {
  }

  lemma TimeoutKeepsInv(d: Record)
    requires Inv(d) && Enabled(d, Timeout)
    ensures Inv(DoTimeout(d))
  {
    TimeoutKeepsSubs(d);
    TimeoutEnds(d);
    FoundV4First(d);
    assert V4First([]);
    hide V4First, SubOk, Proper;
  }

  lemma TimeoutKeepsSubs(d: Record)
    requires Inv(d) && Enabled(d, Timeout)
    ensures SubOk(DoTimeout(d), V4) && SubOk(DoTimeout(d), V6)
  {
    hide V4First, Found;
  }

  lemma TimeoutEnds(d: Record)
    requires Inv(d) && Enabled(d, Timeout)
    ensures var d' := DoTimeout(d);
      && d'.frees <= 1 && !d'.timer && d.calls == [] && |d'.calls| == 1
      && (d'.calls[0].addrs == [] || d'.calls[0].addrs == Found(d.v4) + Found(d.v6))
      && if d'.frees == 0 then Alive(d') else Outcome(d')
  {
  }

  /** The timer cuts the second lookup short: the user is told what has been found, or the code of the error that
      has been kept, and the lookup is cancelled unless its callback is scheduled. */
  lemma TimeoutDoes(d: Record)
    requires Inv(d) && Enabled(d, Timeout)
    ensures var d' := DoTimeout(d);
      && d'.calls == [if d.pendingResult != [] then UserCall(0, d.pendingResult)
                      else UserCall(if d.pendingError != 0 then d.pendingError else EAI_AGAIN, [])]
      && d'.v4 == (if d.v4.Live? then Scheduled(Cancelled) else d.v4)
      && d'.v6 == (if d.v6.Live? then Scheduled(Cancelled) else d.v6)
      && d'.frees == 0 && !d'.userCb && !d'.timer && d'.pendingResult == []
      && d'.r4 == d.r4 && d'.r6 == d.r6 && d'.userCanceled == d.userCanceled && d'.requestDone == d.requestDone
  {
    assert d.r4 == Outstanding(d.v4) && d.r6 == Outstanding(d.v6) && (d.r4 || d.r6) && d.userCb && d.calls == [];
    hide Inv;
  }

  // Without a cancellation that is everything found so far, or the error of the lookup that has finished.
  lemma TimeoutCall(d: Record)
    requires Inv(d) && Enabled(d, Timeout) && d.userCb && !d.userCanceled
    ensures var found := Found(d.v4) + Found(d.v6); var d' := DoTimeout(d);
      && |d'.calls| == 1 && d'.calls[0].addrs == found && (d'.calls[0].err == 0 <==> found != [])
      && (found == [] ==> d'.calls[0].err in {CodeOf(d.v4), CodeOf(d.v6), EAI_AGAIN})
      && !d'.userCb && !d'.v4.Live? && !d'.v6.Live?
  {
  }

  // The other lookup is still out.
  lemma FinishFirst(d: Record, f: Family)
    requires Inv(d) && Enabled(d, Finish(f)) && Handle(d, Other(f))
    ensures Inv(DoFinish(d, f))
  {
    var s := Get(d, f);
    assert d.userCb && d.calls == [];
    assert Found(Get(d, Other(f))) == [];
  }

  lemma V4FirstConcat(a: seq<Addr>, b: seq<Addr>)
    requires (forall i :: 0 <= i < |a| ==> a[i].family == V4) && (forall i :: 0 <= i < |b| ==> b[i].family == V6)
    ensures V4First(a + b)
  {
  }

  // What the last callback tells the user, when nobody has yet
  lemma LastCall(d: Record, f: Family)
    requires Inv(d) && Enabled(d, Finish(f)) && !Handle(d, Other(f)) && d.userCb
    ensures var d' := DoFinish(d, f); var found := Found(d'.v4) + Found(d'.v6);
      d'.calls == [if d.userCanceled then UserCall(EAI_CANCEL, [])
                   else if found != [] then UserCall(0, found)
                   else UserCall(match Get(d, f).reply
                                 case Answer(_) => EAI_NODATA
                                 case NotExist => EAI_NONAME
                                 case _ => EAI_FAIL, [])]
  {
    LastVerdict(d, f);
    FinishKeeps(d, f);
    ConcludeEnds(Over(d, f), Judge(d, f, false, Get(d, f).reply, Get(d, f).sawCancel));
    assert Over(d, f).calls == [];
    hide Conclude, Judge, V4First, Proper;
  }

  lemma LastVerdict(d: Record, f: Family)
    requires Inv(d) && Enabled(d, Finish(f)) && !Handle(d, Other(f)) && d.userCb
    ensures var reply := Get(d, f).reply;
      var mine, others := if reply.Answer? then reply.addrs else [], Found(Get(d, Other(f)));
      var found := if f.V4? then mine + others else others + mine;
      Judge(d, f, false, reply, Get(d, f).sawCancel) ==
        DoneCall(if d.userCanceled then UserCall(EAI_CANCEL, [])
                 else if found != [] then UserCall(0, found)
                 else UserCall(match reply
                               case Answer(_) => EAI_NODATA
                               case NotExist => EAI_NONAME
                               case _ => EAI_FAIL, []))
  {
    hide V4First, Proper;
    var s := Get(d, f);
    assert d.userCanceled == s.sawCancel;
    assert Found(s) == [];
    if f.V4? {
      assert [] + Found(d.v6) == Found(d.v6);
    } else {
      assert Found(d.v4) + [] == Found(d.v4);
    }
  }

  lemma LastFrees(d: Record, f: Family)
    requires Inv(d) && Enabled(d, Finish(f)) && !Handle(d, Other(f))
    ensures var d' := DoFinish(d, f);
      && !Outstanding(d'.v4) && !Outstanding(d'.v6)
      && Get(d', f) == Ran(Get(d, f).reply) && Get(d', Other(f)) == Get(d, Other(f))
      && d.frees == 0 && d'.frees == 1 && !d'.timer && d'.userCb == d.userCb && d'.userCanceled == d.userCanceled
      && (!d.userCb ==> d'.calls == d.calls)
  {
    FinishKeeps(d, f);
    hide V4First, Proper, Found;
    ConcludeEnds(Over(d, f), Judge(d, f, false, Get(d, f).reply, Get(d, f).sawCancel));
    hide Conclude;
  }

  lemma LastKeepsSubs(d: Record, f: Family)
    requires Inv(d) && Enabled(d, Finish(f)) && !Handle(d, Other(f))
    ensures SubOk(DoFinish(d, f), V4) && SubOk(DoFinish(d, f), V6)
  {
    FinishKeeps(d, f);
    hide V4First, Proper, Found, DoFinish;
  }

  lemma FoundV4First(d: Record)
    requires SubOk(d, V4) && SubOk(d, V6)
    ensures V4First(Found(d.v4) + Found(d.v6))
  {
    V4FirstConcat(Found(d.v4), Found(d.v6));
  }

  // The other lookup is done or was never made: the user is told, unless that has happened,
  // and the record is freed.
  lemma FinishLast(d: Record, f: Family)
    requires Inv(d) && Enabled(d, Finish(f)) && !Handle(d, Other(f))
    ensures Inv(DoFinish(d, f)) && DoFinish(d, f).frees == 1
  {
    assert V4First([]);
    LastOutcome(d, f);
    LastKeepsSubs(d, f);
    FoundV4First(DoFinish(d, f));
    LastFrees(d, f);
    hide V4First, DoFinish, Proper, SubOk, Outcome, Found;
  }

  // What was called is an error without addresses, or everything that was found.
  lemma LastOutcome(d: Record, f: Family)
    requires Inv(d) && Enabled(d, Finish(f)) && !Handle(d, Other(f))
    ensures var d' := DoFinish(d, f);
      && Outcome(d')
      && (!d.userCb ==> d'.calls == d.calls)
      && (d.userCb ==> d'.calls[0].addrs == [] || d'.calls[0].addrs == Found(d'.v4) + Found(d'.v6))
  {
    LastFrees(d, f);
    if d.userCb {
      LastCall(d, f);
    }
    hide V4First, DoFinish, Proper, SubOk, Found;
  }

  lemma StepKeepsInv(d: Record, s: Step)
    requires Inv(d) && Enabled(d, s)
    ensures Inv(Take(d, s))
  {
    match s
    case Reply4(_) => ReplyKeepsInv(d, s);
    case Reply6(_) => ReplyKeepsInv(d, s);
    case Begin(f) => BeginKeepsInv(d, f);
    case Finish(f) =>
      if Handle(d, Other(f)) {
        FinishFirst(d, f);
      } else {
        FinishLast(d, f);
      }
    case Timeout => TimeoutKeepsInv(d);
    case UserCancel => UserCancelKeepsInv(d);
  }

  // ---- Whole runs ----

  ghost predicate CanRun(d: Record, steps: seq<Step>)
    decreases steps
  {
    steps == [] || (Enabled(d, steps[0]) && CanRun(Take(d, steps[0]), steps[1..]))
  }

  ghost function Run(d: Record, steps: seq<Step>): Record
    requires CanRun(d, steps)
    decreases steps
  {
    if steps == [] then d else Run(Take(d, steps[0]), steps[1..])
  }

  lemma {:induction false} RunKeepsInv(d: Record, steps: seq<Step>)
    requires Inv(d) && CanRun(d, steps)
    ensures Inv(Run(d, steps))
    decreases steps
  {
    if steps != [] {
      StepKeepsInv(d, steps[0]);
      RunKeepsInv(Take(d, steps[0]), steps[1..]);
    }
  }

  /** In every interleaving: the record is freed at most once, only after the callbacks of both
      lookups, and by then the user's callback has run exactly once, never more than once
      before; what it is told on success lists IPv4 addresses first, and without a timeout or
      a cancellation it is exactly what both lookups found. */
  lemma EveryRunIsSafe(want4: bool, want6: bool, steps: seq<Step>)
    requires want4 || want6
    requires CanRun(Launch(want4, want6), steps)
    ensures var d := Run(Launch(want4, want6), steps);
      && d.frees <= 1 && |d.calls| <= 1
      && (d.frees == 1 ==> |d.calls| == 1 && !Outstanding(d.v4) && !Outstanding(d.v6))
      && (d.frees == 0 ==> Outstanding(d.v4) || Outstanding(d.v6))
      && (|d.calls| == 1 ==> V4First(d.calls[0].addrs))
      && (d.frees == 1 && d.userCb && d.userCanceled ==> d.calls == [UserCall(EAI_CANCEL, [])])
      && (d.frees == 1 && d.userCb && !d.userCanceled && Found(d.v4) + Found(d.v6) != [] ==>
            d.calls == [UserCall(0, Found(d.v4) + Found(d.v6))])
  {
    RunKeepsInv(Launch(want4, want6), steps);
  }

  // ---- What the servers answer reaches the user ----

  // The reply a lookup has got
  function Carried(s: Sub): Option<Reply> {
    if s.Scheduled? || s.Running? || s.Ran? then Some(s.reply) else None
  }

  function ReplyIn(s: Step, f: Family): Option<Reply> {
    if s.Reply4? && f.V4? then Some(s.reply) else if s.Reply6? && f.V6? then Some(s.reply) else None
  }

  // The first reply to a lookup in a run
  function Replied(steps: seq<Step>, f: Family): Option<Reply> {
    if steps == [] then None else if ReplyIn(steps[0], f).Some? then ReplyIn(steps[0], f) else Replied(steps[1..], f)
  }

  ghost predicate LeftAlone(steps: seq<Step>) {
    forall i :: 0 <= i < |steps| ==> !steps[i].Timeout? && !steps[i].UserCancel?
  }

  lemma StepCarries(d: Record, s: Step, f: Family)
    requires Inv(d) && Enabled(d, s) && !s.Timeout? && !s.UserCancel?
    ensures var d' := Take(d, s);
      && d'.userCb == d.userCb && d'.userCanceled == d.userCanceled && (Get(d', f).Never? <==> Get(d, f).Never?)
      && (if ReplyIn(s, f).Some? then Get(d, f).Live? && Carried(Get(d', f)) == ReplyIn(s, f)
          else Carried(Get(d', f)) == Carried(Get(d, f)) && (Get(d', f).Live? <==> Get(d, f).Live?))
  {
    if s.Finish? {
      FinishKeeps(d, s.f);
      hide DoFinish;
    }
    hide Inv;
  }

  lemma {:induction false} RunCarries(d: Record, steps: seq<Step>, f: Family)
    requires Inv(d) && CanRun(d, steps) && LeftAlone(steps)
    ensures var e := Run(d, steps);
      && e.userCb == d.userCb && e.userCanceled == d.userCanceled && (Get(e, f).Never? <==> Get(d, f).Never?)
      && Carried(Get(e, f)) == if Get(d, f).Live? then Replied(steps, f) else Carried(Get(d, f))
    decreases steps
  {
    if steps != [] {
      StepKeepsInv(d, steps[0]);
      StepCarries(d, steps[0], f);
      RunCarries(Take(d, steps[0]), steps[1..], f);
    }
  }

  function Addresses(r: Option<Reply>): seq<Addr> {
    if r.Some? && r.value.Answer? then r.value.addrs else []
  }

  /** Left alone by the user and the timer, both lookups are answered before the user is called, once, with all the
      addresses of the two answers, the IPv4 ones first; or with an error if there are none. */
  lemma AnswersReachTheUser(want4: bool, want6: bool, steps: seq<Step>)
    requires (want4 || want6) && CanRun(Launch(want4, want6), steps) && LeftAlone(steps)
    ensures var d, all := Run(Launch(want4, want6), steps),
            Addresses(Replied(steps, V4)) + Addresses(Replied(steps, V6));
      d.frees == 1 ==>
        && (want4 ==> Replied(steps, V4).Some?) && (want6 ==> Replied(steps, V6).Some?) && |d.calls| == 1
        && (d.calls[0].err == 0 <==> all != []) && d.calls[0].addrs == all
  {
    var start := Launch(want4, want6);
    RunKeepsInv(start, steps);
    RunCarries(start, steps, V4);
    RunCarries(start, steps, V6);
    NeverReplied(start, steps, V4);
    NeverReplied(start, steps, V6);
    if Run(start, steps).frees == 1 {
      OutcomeIs(Run(start, steps));
    }
    hide Replied, Inv;
  }

  lemma OutcomeIs(d: Record)
    requires Inv(d) && d.frees == 1 && d.userCb && !d.userCanceled
    ensures var all := Addresses(Carried(d.v4)) + Addresses(Carried(d.v6));
      && |d.calls| == 1 && (d.calls[0].err == 0 <==> all != []) && d.calls[0].addrs == all
      && (d.v4.Never? || d.v4.Ran?) && (d.v6.Never? || d.v6.Ran?)
  {
    assert Found(d.v4) == Addresses(Carried(d.v4)) && Found(d.v6) == Addresses(Carried(d.v6));
    hide SubOk, V4First;
  }

  // A lookup that was not made is not answered.
  lemma {:induction false} NeverReplied(d: Record, steps: seq<Step>, f: Family)
    requires Inv(d) && CanRun(d, steps) && LeftAlone(steps)
    ensures !Get(d, f).Live? ==> Replied(steps, f).None?
    decreases steps
  {
    if steps != [] {
      StepKeepsInv(d, steps[0]);
      StepCarries(d, steps[0], f);
      NeverReplied(Take(d, steps[0]), steps[1..], f);
    }
  }

  // ---- Cancelling ----

  ghost predicate NoTimeout(steps: seq<Step>) {
    forall i :: 0 <= i < |steps| ==> !steps[i].Timeout?
  }

  lemma {:induction false} RunConcat(d: Record, a: seq<Step>, b: seq<Step>)
    requires CanRun(d, a + b)
    ensures CanRun(d, a) && CanRun(Run(d, a), b) && Run(d, a + b) == Run(Run(d, a), b)
    decreases a
  {
    if a == [] {
      assert a + b == b;
    } else {
      assert (a + b)[0] == a[0] && (a + b)[1..] == a[1..] + b;
      RunConcat(Take(d, a[0]), a[1..], b);
    }
  }

  // Once the user has cancelled, only the timer can call them with anything else.
  lemma {:induction false} CancelledStays(d: Record, steps: seq<Step>)
    requires Inv(d) && d.userCanceled && CanRun(d, steps)
    ensures Run(d, steps).userCanceled
    ensures d.userCb && NoTimeout(steps) ==> Run(d, steps).userCb
    decreases steps
  {
    if steps != [] {
      var d' := Take(d, steps[0]);
      StepKeepsInv(d, steps[0]);
      hide Inv;
      CancelledStep(d, steps[0]);
      CancelledStays(d', steps[1..]);
    }
  }

  lemma CancelledStep(d: Record, s: Step)
    requires Enabled(d, s) && d.userCanceled
    ensures Take(d, s).userCanceled && (!s.Timeout? ==> Take(d, s).userCb == d.userCb)
  {
    if s.Finish? {
      FinishKeeps(d, s.f);
      hide DoFinish;
    }
  }

  // A call that the timer has made stays the only one, and is no report of the cancellation.
  lemma {:induction false} TimeoutTells(d: Record, steps: seq<Step>)
    requires Inv(d) && d.userCb && CanRun(d, steps) && !NoTimeout(steps)
    ensures var e := Run(d, steps); |e.calls| == 1 && e.calls[0].err != EAI_CANCEL
    decreases steps
  {
    var d' := Take(d, steps[0]);
    StepKeepsInv(d, steps[0]);
    if steps[0].Timeout? {
      TimeoutDoes(d);
      assert d'.calls[0].err != EAI_CANCEL;
      ToldStays(d', steps[1..]);
    } else {
      assert !NoTimeout(steps[1..]) by {
        var i :| 0 <= i < |steps| && steps[i].Timeout?;
        assert steps[1..][i - 1].Timeout?;
      }
      UserCbStays(d, steps[0]);
      TimeoutTells(d', steps[1..]);
    }
  }

  lemma UserCbStays(d: Record, s: Step)
    requires Enabled(d, s) && !s.Timeout?
    ensures Take(d, s).userCb == d.userCb
  {
    if s.Finish? {
      FinishKeeps(d, s.f);
      hide DoFinish;
    }
  }

  lemma {:induction false} ToldStays(d: Record, steps: seq<Step>)
    requires Inv(d) && !d.userCb && CanRun(d, steps)
    ensures Run(d, steps).calls == d.calls
    decreases steps
  {
    if steps != [] {
      var d' := Take(d, steps[0]);
      StepKeepsInv(d, steps[0]);
      ToldStep(d, steps[0]);
      ToldStays(d', steps[1..]);
    }
  }

  lemma ToldStep(d: Record, s: Step)
    requires Inv(d) && Enabled(d, s) && !d.userCb
    ensures !Take(d, s).userCb && Take(d, s).calls == d.calls
  {
  }

  /** A user who cancels before they are called and before the last callback begins is told so, and nothing else,
      exactly if the timer does not fire afterwards: finishing a cancelled lookup arms it again. */
  lemma CancelIsReported(want4: bool, want6: bool, before: seq<Step>, after: seq<Step>)
    requires (want4 || want6) && CanRun(Launch(want4, want6), before + ([UserCancel] + after))
    ensures CanRun(Launch(want4, want6), before)
    ensures var d, e := Run(Launch(want4, want6), before), Run(Launch(want4, want6), before + ([UserCancel] + after));
      d.calls == [] && !d.requestDone && e.frees == 1 ==>
        (e.calls == [UserCall(EAI_CANCEL, [])] <==> NoTimeout(after))
  {
    var start := Launch(want4, want6);
    RunConcat(start, before, [UserCancel] + after);
    RunKeepsInv(start, before);
    assert ([UserCancel] + after)[1..] == after;
    var d := Run(start, before);
    hide Inv, DoUserCancel;
    if d.calls == [] && !d.requestDone {
      CancelFrom(d, after);
    }
  }

  lemma CancelFrom(d: Record, after: seq<Step>)
    requires Inv(d) && d.frees == 0 && d.calls == [] && !d.requestDone && CanRun(DoUserCancel(d), after)
    ensures var e := Run(DoUserCancel(d), after);
      e.frees == 1 ==> (e.calls == [UserCall(EAI_CANCEL, [])] <==> NoTimeout(after))
  {
    var d1 := DoUserCancel(d);
    UserCancelDoes(d);
    UserCancelKeepsInv(d);
    assert d.userCb;
    RunKeepsInv(d1, after);
    if NoTimeout(after) {
      CancelledStays(d1, after);
    } else {
      TimeoutTells(d1, after);
    }
    hide SubOk, Alive, V4First;
  }

  // Both lookups are cancelled, and the timer that the first one arms fires before the second one's callback.
  lemma CancelCanBeMissed()
    ensures var steps := [UserCancel, Begin(V4), Finish(V4), Timeout, Begin(V6), Finish(V6)];
      && CanRun(Launch(true, true), steps)
      && Run(Launch(true, true), steps).frees == 1 && Run(Launch(true, true), steps).calls == [UserCall(EAI_FAIL, [])]
  {
    var d := Launch(true, true);
    var steps := [UserCancel, Begin(V4), Finish(V4), Timeout, Begin(V6), Finish(V6)];
    var d1 := Take(d, UserCancel);
    var d2 := Take(d1, Begin(V4));
    var d3 := Take(d2, Finish(V4));
    var d4 := Take(d3, Timeout);
    var d5 := Take(d4, Begin(V6));
    var d6 := Take(d5, Finish(V6));
    RunStep(d5, d6, [Finish(V6)]);
    RunStep(d4, d5, [Begin(V6), Finish(V6)]);
    RunStep(d3, d4, [Timeout, Begin(V6), Finish(V6)]);
    RunStep(d2, d3, [Finish(V4), Timeout, Begin(V6), Finish(V6)]);
    RunStep(d1, d2, [Begin(V4), Finish(V4), Timeout, Begin(V6), Finish(V6)]);
    RunStep(d, d1, steps);
  }

  lemma RunStep(d: Record, d': Record, steps: seq<Step>)
    requires steps != [] && Enabled(d, steps[0]) && d' == Take(d, steps[0])
    ensures CanRun(d, steps) == CanRun(d', steps[1..])
    ensures CanRun(d, steps) ==> Run(d, steps) == Run(d', steps[1..])
  {
  }

  // ---- Every run can come to its end ----

  function Ahead(s: Sub): nat {
    match s
    case Live => 3
    case Scheduled(_) => 2
    case Running(_, _) => 1
    case _ => 0
  }

  // The next thing that happens, with these replies if they are still to come
  function NextStep(d: Record, r4: Reply, r6: Reply): Step {
    if d.v4.Running? then Finish(V4) else if d.v6.Running? then Finish(V6)
    else if d.v4.Scheduled? then Begin(V4) else if d.v6.Scheduled? then Begin(V6)
    else if d.v4.Live? then Reply4(r4) else Reply6(r6)
  }

  lemma NextStepHelps(d: Record, r4: Reply, r6: Reply)
    requires Inv(d) && d.frees == 0 && Proper(r4, V4) && Proper(r6, V6) && !r4.Cancelled? && !r6.Cancelled?
    ensures Enabled(d, NextStep(d, r4, r6))
    ensures var d' := Take(d, NextStep(d, r4, r6)); Ahead(d'.v4) + Ahead(d'.v6) < Ahead(d.v4) + Ahead(d.v6)
  {
    hide V4First, Found;
    if d.v4.Running? {
      FinishKeeps(d, V4);
    } else if d.v6.Running? {
      FinishKeeps(d, V6);
    }
    hide DoFinish;
  }

  /** Whatever has happened, and whatever the servers answer, it can go on until the record is freed: no state is a
      dead end. */
  lemma {:induction false} EveryRunCanEnd(d: Record, r4: Reply, r6: Reply) returns (steps: seq<Step>)
    requires Inv(d) && Proper(r4, V4) && Proper(r6, V6) && !r4.Cancelled? && !r6.Cancelled?
    ensures CanRun(d, steps) && Run(d, steps).frees == 1
    decreases Ahead(d.v4) + Ahead(d.v6)
  {
    if d.frees == 1 {
      steps := [];
    } else {
      var s := NextStep(d, r4, r6);
      NextStepHelps(d, r4, r6);
      StepKeepsInv(d, s);
      var more := EveryRunCanEnd(Take(d, s), r4, r6);
      steps := [s] + more;
      assert steps[1..] == more;
    }
  }

  // A handle that is cancelled has not been freed: freeing happens after the callback, which
  // clears the pointer first.
  lemma NoDanglingHandle(want4: bool, want6: bool, steps: seq<Step>, f: Family)
    requires want4 || want6
    requires CanRun(Launch(want4, want6), steps)
    ensures var d := Run(Launch(want4, want6), steps);
      && (Handle(d, f) ==> !Get(d, f).Ran? && !Get(d, f).Never?)
      && (d.timer ==> d.frees == 0 && d.userCb && !(d.r4 && d.r6))
  {
    RunKeepsInv(Launch(want4, want6), steps);
  }
}
