/**
 The requests of an evdns_base: those in flight, in buckets by transaction id, and those that
 wait. Every circular list is kept as a sequence from its head on.
 */
module RequestTable {
  import opened NameserverRing
  import opened Wrappers

  // ns is the nameserver assigned; id stands for the address of the request.
  datatype Request = Request(id: nat, transId: nat, ns: Option<nat>, txCount: nat)

  // All the requests of the buckets
  ghost function Bag(heads: seq<seq<Request>>): multiset<Request> {
    if heads == [] then multiset{} else multiset(heads[0]) + Bag(heads[1..])
  }

  // Every request in flight has a nameserver and is in the bucket of its transaction id.
  ghost predicate Placed(heads: seq<seq<Request>>) {
    heads != [] && forall i, r :: 0 <= i < |heads| && r in heads[i] ==> r.ns.Some? && r.transId % |heads| == i
  }

  ghost predicate Unassigned(waiting: seq<Request>) {
    forall r :: r in waiting ==> r.ns.None?
  }

  lemma {:induction false} BagUpdate(heads: seq<seq<Request>>, i: nat, b: seq<Request>)
    requires i < |heads|
    ensures Bag(heads[i := b]) + multiset(heads[i]) == Bag(heads) + multiset(b)
  {
    var heads', was, bb := heads[i := b], multiset(heads[i]), multiset(b);
    if i == 0 {
      assert heads'[1..] == heads[1..];
      BagSwap(bb, Bag(heads[1..]), was);
    } else {
      BagUpdate(heads[1..], i - 1, b);
      assert heads'[1..] == heads[1..][i - 1 := b];
      BagAssoc(multiset(heads[0]), Bag(heads'[1..]), was);
      BagAssoc(multiset(heads[0]), Bag(heads[1..]), bb);
    }
  }

  lemma BagSwap(a: multiset<Request>, b: multiset<Request>, c: multiset<Request>)
    ensures a + b + c == c + b + a
  {
  }

  lemma BagAssoc(a: multiset<Request>, b: multiset<Request>, c: multiset<Request>)
    ensures a + b + c == a + (b + c)
  {
  }

  lemma {:induction false} BagHas(heads: seq<seq<Request>>, i: nat, r: Request)
    requires i < |heads| && r in heads[i]
    ensures r in Bag(heads)
  {
    if i > 0 {
      BagHas(heads[1..], i - 1, r);
    }
  }

  lemma {:induction false} BagFrom(heads: seq<seq<Request>>, r: Request) returns (i: nat)
    requires r in Bag(heads)
    ensures i < |heads| && r in heads[i]
  {
    if r in heads[0] {
      i := 0;
    } else {
      i := BagFrom(heads[1..], r);
      i := i + 1;
    }
  }

  lemma {:induction false} BagEmpty(heads: seq<seq<Request>>)
    requires forall i :: 0 <= i < |heads| ==> heads[i] == []
    ensures Bag(heads) == multiset{}
  {
    if heads != [] {
      BagEmpty(heads[1..]);
    }
  }

  function Empty(n: nat): (r: seq<seq<Request>>)
    ensures |r| == n && forall i :: 0 <= i < n ==> r[i] == []
  {
    seq(n, _ => [])
  }

  lemma EmptyPlaced(n: nat)
    requires n > 0
    ensures Placed(Empty(n)) && Bag(Empty(n)) == multiset{}
  {
    BagEmpty(Empty(n));
  }

  // evdns_request_insert into the list of the transaction id
  function Inserted(heads: seq<seq<Request>>, r: Request): (heads': seq<seq<Request>>)
    requires heads != []
    ensures |heads'| == |heads|
  {
    var i := r.transId % |heads|;
    heads[i := heads[i] + [r]]
  }

  lemma InsertedIs(heads: seq<seq<Request>>, r: Request)
    requires Placed(heads) && r.ns.Some?
    ensures Placed(Inserted(heads, r)) && Bag(Inserted(heads, r)) == Bag(heads) + multiset{r}
    ensures |Bag(Inserted(heads, r))| == |Bag(heads)| + 1
  {
    var i := r.transId % |heads|;
    var b := heads[i] + [r];
    PlacedUpdate(heads, i, b);
    BagUpdate(heads, i, b);
    assert multiset(b) == multiset(heads[i]) + multiset{r};
    hide Bag, Placed;
    BagGive(Bag(heads[i := b]), Bag(heads), multiset(heads[i]), r);
  }

  lemma PlacedUpdate(heads: seq<seq<Request>>, i: nat, b: seq<Request>)
    requires Placed(heads) && i < |heads| && forall r :: r in b ==> r.ns.Some? && r.transId % |heads| == i
    ensures Placed(heads[i := b])
  {
  }

  lemma BagGive(a: multiset<Request>, b: multiset<Request>, c: multiset<Request>, r: Request)
    requires a + c == b + (c + multiset{r})
    ensures a == b + multiset{r} && |a| == |b| + 1
  {
    assert b + (c + multiset{r}) == (b + multiset{r}) + c;
    BagCancel(a, b + multiset{r}, c);
  }

  lemma BagCancel(a: multiset<Request>, b: multiset<Request>, c: multiset<Request>)
    requires a + c == b + c
    ensures a == b
  {
    assert a == a + c - c && b == b + c - c;
  }

  // Without the element at k
  function Without(s: seq<Request>, k: nat): (r: seq<Request>)
    requires k < |s|
    ensures multiset(r) == multiset(s) - multiset{s[k]} && |r| == |s| - 1
    ensures forall x :: x in r ==> x in s
    ensures forall i :: 0 <= i < |r| ==> r[i] == if i < k then s[i] else s[i + 1]
  {
    assert s == s[..k] + [s[k]] + s[k + 1..];
    s[..k] + s[k + 1..]
  }

  lemma RemovedIs(heads: seq<seq<Request>>, i: nat, k: nat)
    requires Placed(heads) && i < |heads| && k < |heads[i]|
    ensures var heads' := heads[i := Without(heads[i], k)];
      Placed(heads') && Bag(heads') == Bag(heads) - multiset{heads[i][k]} && |Bag(heads)| == |Bag(heads')| + 1
  {
    var r, w := heads[i][k], Without(heads[i], k);
    PlacedUpdate(heads, i, w);
    BagUpdate(heads, i, w);
    WithoutOne(heads[i], k);
    hide Bag, Placed, Without;
    BagTake(Bag(heads[i := w]), Bag(heads), multiset(w), r);
  }

  lemma WithoutOne(s: seq<Request>, k: nat)
    requires k < |s|
    ensures multiset(s) == multiset(Without(s, k)) + multiset{s[k]}
  {
    assert s[k] in multiset(s);
  }

  lemma BagTake(a: multiset<Request>, b: multiset<Request>, c: multiset<Request>, r: Request)
    requires a + (c + multiset{r}) == b + c
    ensures a == b - multiset{r} && |b| == |a| + 1
  {
    assert a + (c + multiset{r}) == (a + multiset{r}) + c;
    BagCancel(a + multiset{r}, b, c);
  }

  // A request promoted from the waiting queue: it has a nameserver and the transaction id drawn.
  ghost predicate Promoted(w: Request, p: Request, draw: nat) {
    p.ns.Some? && p == w.(ns := p.ns, transId := draw)
  }

  // The nameserver of the request is up.
  ghost predicate WithGood(r: Request, ring: seq<Server>) {
    r.ns.Some? && Server(r.ns.value, true) in ring
  }

  // The servers that are up take turns.
  ghost predicate TakeTurns(promoted: seq<Request>, ring: seq<Server>) {
    Ups(ring) != [] ==>
      forall i :: 0 <= i < |promoted| ==> promoted[i].ns == Some(Ups(ring)[i % |Ups(ring)|].id)
  }

  lemma NextTurn(promoted: seq<Request>, ring: seq<Server>, p: Request)
    requires TakeTurns(promoted, ring)
    requires Ups(ring) != [] ==> p.ns == Some(Ups(ring)[|promoted| % |Ups(ring)|].id)
    ensures TakeTurns(promoted + [p], ring)
  {
  }

  lemma TurnsAreGood(promoted: seq<Request>, ring: seq<Server>)
    requires TakeTurns(promoted, ring)
    ensures Ups(ring) != [] ==> forall i :: 0 <= i < |promoted| ==> WithGood(promoted[i], ring)
  {
    var us := Ups(ring);
    if us != [] {
      forall i | 0 <= i < |promoted| ensures WithGood(promoted[i], ring) {
        UpsIn(ring, us[i % |us|]);
      }
    }
  }

  // Those promoted are the first that waited, in their order, each with the transaction id drawn for it.
  ghost predicate InOrder(waiting: seq<Request>, draws: seq<nat>, promoted: seq<Request>, left: seq<Request>) {
    && |promoted| <= |waiting| <= |draws| && left == waiting[|promoted|..]
    && forall i :: 0 <= i < |promoted| ==> Promoted(waiting[i], promoted[i], draws[i])
  }

  lemma OrderIs(waiting: seq<Request>, draws: seq<nat>, promoted: seq<Request>, left: seq<Request>)
    requires InOrder(waiting, draws, promoted, left)
    ensures |promoted| <= |waiting| && left == waiting[|promoted|..]
    ensures forall i :: 0 <= i < |promoted| ==> |promoted| <= |draws| && Promoted(waiting[i], promoted[i], draws[i])
  {
  }

  lemma OrderDraw(waiting: seq<Request>, draws: seq<nat>, promoted: seq<Request>, left: seq<Request>)
    requires InOrder(waiting, draws, promoted, left) && left != []
    ensures |promoted| < |draws|
  {
  }

  lemma PumpStart(waiting: seq<Request>, draws: seq<nat>, ring: seq<Server>)
    requires |draws| >= |waiting|
    ensures InOrder(waiting, draws, [], waiting) && TakeTurns([], ring) && Turned(ring, ring, 0)
  {
    NotTurned(ring);
  }

  lemma PumpNext(waiting: seq<Request>, draws: seq<nat>, promoted: seq<Request>, left: seq<Request>, p: Request,
                 ring: seq<Server>)
    requires InOrder(waiting, draws, promoted, left) && left != [] && |promoted| < |draws|
    requires Promoted(left[0], p, draws[|promoted|]) && TakeTurns(promoted, ring)
    requires Ups(ring) != [] ==> p.ns == Some(Ups(ring)[|promoted| % |Ups(ring)|].id)
    ensures InOrder(waiting, draws, promoted + [p], left[1..]) && TakeTurns(promoted + [p], ring)
  {
    NextTurn(promoted, ring, p);
    hide TakeTurns, Promoted;
  }

  // What has been added to the table
  ghost predicate Gained(before: multiset<Request>, now: multiset<Request>, promoted: seq<Request>) {
    now == before + multiset(promoted)
  }

  lemma GainedIs(before: multiset<Request>, now: multiset<Request>, promoted: seq<Request>)
    requires Gained(before, now, promoted)
    ensures now == before + multiset(promoted)
  {
  }

  lemma GainedNext(before: multiset<Request>, now: multiset<Request>, promoted: seq<Request>, p: Request)
    requires Gained(before, now, promoted)
    ensures Gained(before, now + multiset{p}, promoted + [p])
  {
    assert multiset(promoted + [p]) == multiset(promoted) + multiset{p};
  }

  // How the servers that are up stand after a number of turns
  ghost predicate Turned(ring: seq<Server>, ring': seq<Server>, n: nat) {
    Ups(ring) != [] ==> Ups(ring') == Rotate(Ups(ring), n % |Ups(ring)|)
  }

  lemma TurnedOnce(ring: seq<Server>, ring1: seq<Server>, ring2: seq<Server>, n: nat)
    requires Turned(ring, ring1, n) && |Ups(ring1)| == |Ups(ring)|
    requires Ups(ring1) != [] ==> Ups(ring2) == Ups(ring1)[1..] + [Ups(ring1)[0]]
    ensures Turned(ring, ring2, n + 1)
    ensures Ups(ring) != [] ==> Ups(ring1)[0] == Ups(ring)[n % |Ups(ring)|]
  {
    var us := Ups(ring);
    if us != [] {
      RotateNext(us, n % |us|);
      RotateRound(us, n);
    }
  }

  lemma NotTurned(ring: seq<Server>)
    ensures Turned(ring, ring, 0)
  {
    if Ups(ring) != [] {
      RotateNext(Ups(ring), 0);
    }
  }

  lemma GoodStays(r: Request, ring: seq<Server>, ring': seq<Server>)
    requires multiset(ring) == multiset(ring')
    ensures WithGood(r, ring) ==> WithGood(r, ring')
  {
    if WithGood(r, ring) {
      assert Server(r.ns.value, true) in multiset(ring);
      assert Server(r.ns.value, true) in multiset(ring');
    }
  }

  class Requests {
    var heads: seq<seq<Request>>
    var waiting: seq<Request>
    var inflightCount: int
    var waitingCount: int
    var maxInflight: int
    const servers: Nameservers

    ghost predicate Valid()
      reads this, servers
    {
      && Placed(heads) && Unassigned(waiting) && inflightCount == |Bag(heads)| && waitingCount == |waiting|
      && servers.Valid() && maxInflight >= 1
    }

    constructor (ns: Nameservers)
      requires ns.Valid()
      ensures Valid() && servers == ns && waiting == [] && Bag(heads) == multiset{} && maxInflight == 64
    {
      hide Bag, Placed, Empty, Nameservers.Valid;
      EmptyPlaced(13);
      servers, waiting, inflightCount, waitingCount, maxInflight := ns, [], 0, 0, 64;
      heads := Empty(13);
    }

    /** request_find_from_trans_id: looking into one bucket is enough. */
    method Find(transId: nat) returns (r: Option<Request>)
      requires Valid()
      ensures r.Some? ==> r.value.transId == transId && r.value in Bag(heads)
      ensures r.None? ==> forall x :: x in Bag(heads) ==> x.transId != transId
    {
      var i := transId % |heads|;
      var s := heads[i];
      for k := 0 to |s|
        invariant forall j :: 0 <= j < k ==> s[j].transId != transId
      {
        if s[k].transId == transId {
          BagHas(heads, i, s[k]);
          return Some(s[k]);
        }
      }
      forall x | x in Bag(heads) ensures x.transId != transId {
        var b := BagFrom(heads, x);
      }
      r := None;
    }

    // evdns_request_insert into the bucket of the transaction id
    method InsertInflight(r: Request)
      requires Placed(heads) && r.ns.Some? && inflightCount == |Bag(heads)|
      modifies this`heads, this`inflightCount
      ensures Placed(heads) && Bag(heads) == old(Bag(heads)) + multiset{r}
              && inflightCount == |Bag(heads)| == old(inflightCount) + 1
      ensures |heads| == |old(heads)|
    {
      hide Bag;
      InsertedIs(heads, r);
      heads := Inserted(heads, r);
      inflightCount := inflightCount + 1;
    }

    /** request_submit: a request with a nameserver goes in flight, another one waits at the end
        of the queue. */
    method Submit(r: Request)
      requires Valid()
      modifies this
      ensures Valid()
      ensures r.ns.Some? ==> Bag(heads) == old(Bag(heads)) + multiset{r} && waiting == old(waiting)
      ensures r.ns.None? ==> heads == old(heads) && waiting == old(waiting) + [r]
      ensures maxInflight == old(maxInflight)
    {
      hide Bag;
      if r.ns.Some? {
        InsertInflight(r);
      } else {
        waiting := waiting + [r];
        waitingCount := waitingCount + 1;
      }
    }

    // The head of the waiting queue goes in flight.
    method PromoteOne(draw: nat) returns (p: Request)
      requires Valid() && waiting != [] && servers.ring != []
      modifies this, servers`ring
      ensures Valid() && servers.ring != [] && waiting == old(waiting)[1..] && maxInflight == old(maxInflight)
      ensures Promoted(old(waiting)[0], p, draw) && Bag(heads) == old(Bag(heads)) + multiset{p}
              && inflightCount == old(inflightCount) + 1
      ensures multiset(servers.ring) == multiset(old(servers.ring)) && (servers.good > 0 ==> WithGood(p, servers.ring))
      ensures var us := Ups(old(servers.ring));
        us != [] ==> p.ns == Some(us[0].id) && Ups(servers.ring) == us[1..] + [us[0]]
    {
      hide Bag, Ups, Rotate;
      p := waiting[0];
      waiting := waiting[1..];
      waitingCount := waitingCount - 1;
      var ns := servers.Pick();
      p := p.(ns := ns, transId := draw);
      InsertInflight(p);
    }

    /** evdns_requests_pump_waiting_queue: requests are promoted in the order in which they wait,
        until none waits or the limit is reached. The transaction ids are drawn at random. */
    method Pump(draws: seq<nat>) returns (ghost promoted: seq<Request>)
      requires Valid() && servers.ring != [] && |draws| >= |waiting|
      modifies this, servers`ring
      ensures Valid() && servers.ring != [] && maxInflight == old(maxInflight)
      ensures |promoted| == Min(|old(waiting)|, Max(0, maxInflight - old(inflightCount)))
      ensures waiting == old(waiting)[|promoted|..] && (waiting == [] || inflightCount >= maxInflight)
      ensures forall i :: 0 <= i < |promoted| ==> Promoted(old(waiting)[i], promoted[i], draws[i])
      ensures Bag(heads) == old(Bag(heads)) + multiset(promoted)
      ensures multiset(servers.ring) == multiset(old(servers.ring))
      ensures servers.good > 0 ==> forall i :: 0 <= i < |promoted| ==> WithGood(promoted[i], old(servers.ring))
      ensures TakeTurns(promoted, old(servers.ring))
    {
      PumpStart(waiting, draws, servers.ring);
      assert servers.good == |Ups(servers.ring)|;
      hide Bag, WithGood, Placed, Unassigned, Ups, Distinct, Rotate, TakeTurns, Turned, InOrder;
      promoted := [];
      assert Gained(Bag(heads), Bag(heads), []);
      hide Gained, Promoted;
      var n := 0;
      while inflightCount < maxInflight && waitingCount > 0
        invariant Valid() && servers.ring != [] && maxInflight == old(maxInflight)
        invariant n == |promoted| && InOrder(old(waiting), draws, promoted, waiting)
        invariant n <= Max(0, maxInflight - old(inflightCount)) && inflightCount == old(inflightCount) + n
        invariant Gained(old(Bag(heads)), Bag(heads), promoted)
        invariant multiset(servers.ring) == multiset(old(servers.ring)) && servers.good == |Ups(old(servers.ring))|
        invariant TakeTurns(promoted, old(servers.ring)) && Turned(old(servers.ring), servers.ring, n)
        decreases |waiting|
      {
        // The source asserts that there is a head, going by the counter.
        assert waiting != [];
        ghost var ring1, left, bag := servers.ring, waiting, Bag(heads);
        OrderDraw(old(waiting), draws, promoted, waiting);
        var p := PromoteOne(draws[n]);
        TurnedOnce(old(servers.ring), ring1, servers.ring, n);
        PumpNext(old(waiting), draws, promoted, left, p, old(servers.ring));
        GainedNext(old(Bag(heads)), bag, promoted, p);
        promoted := promoted + [p];
        n := n + 1;
      }
      OrderIs(old(waiting), draws, promoted, waiting);
      TurnsAreGood(promoted, old(servers.ring));
      GainedIs(old(Bag(heads)), Bag(heads), promoted);
    }

    /** request_finished for a request in flight: it leaves its bucket, and the queue is pumped. */
    method FinishInflight(r: Request, draws: seq<nat>) returns (ghost promoted: seq<Request>)
      requires Valid() && servers.ring != [] && r in Bag(heads) && |draws| >= |waiting|
      modifies this, servers`ring
      ensures Valid() && servers.ring != [] && maxInflight == old(maxInflight)
      ensures |promoted| == Min(|old(waiting)|, Max(0, maxInflight - (old(inflightCount) - 1)))
      ensures waiting == old(waiting)[|promoted|..] && (waiting == [] || inflightCount >= maxInflight)
      ensures forall i :: 0 <= i < |promoted| ==> Promoted(old(waiting)[i], promoted[i], draws[i])
      ensures Bag(heads) == old(Bag(heads)) - multiset{r} + multiset(promoted)
      ensures multiset(servers.ring) == multiset(old(servers.ring))
      ensures servers.good > 0 ==> forall i :: 0 <= i < |promoted| ==> WithGood(promoted[i], old(servers.ring))
      ensures TakeTurns(promoted, old(servers.ring))
      ensures inflightCount <= Max(maxInflight, old(inflightCount))
    {
      hide Bag, Promoted, WithGood, TakeTurns;
      RemoveInflight(r);
      promoted := Pump(draws);
    }

    // evdns_request_remove from the bucket of the transaction id
    method RemoveInflight(r: Request)
      requires Placed(heads) && r in Bag(heads) && inflightCount == |Bag(heads)|
      modifies this`heads, this`inflightCount
      ensures Placed(heads) && Bag(heads) == old(Bag(heads)) - multiset{r}
              && inflightCount == |Bag(heads)| == old(inflightCount) - 1
    {
      ghost var b := BagFrom(heads, r);
      hide Bag;
      var i := r.transId % |heads|;
      var k := LocateValue(heads[i], r);
      RemovedIs(heads, i, k);
      heads := heads[i := Without(heads[i], k)];
      inflightCount := inflightCount - 1;
    }

    /** evdns_cancel_request: the nameserver tells which list the request is on. */
    method Cancel(r: Request, draws: seq<nat>) returns (ghost promoted: seq<Request>, ghost k: nat)
      requires Valid() && servers.ring != [] && (r in Bag(heads) || r in waiting) && |draws| >= |waiting|
      modifies this, servers`ring
      ensures Valid() && servers.ring != [] && maxInflight == old(maxInflight)
      ensures waiting == [] || inflightCount >= maxInflight
      ensures r.ns.None? ==> k < |old(waiting)| && old(waiting)[k] == r
      ensures var left := if r.ns.Some? then old(waiting) else Without(old(waiting), k);
              var free := maxInflight - old(inflightCount) + if r.ns.Some? then 1 else 0;
              && |promoted| == Min(|left|, Max(0, free)) && waiting == left[|promoted|..]
              && forall i :: 0 <= i < |promoted| ==> Promoted(left[i], promoted[i], draws[i])
      ensures Bag(heads) == old(Bag(heads)) - (if r.ns.Some? then multiset{r} else multiset{}) + multiset(promoted)
      ensures multiset(servers.ring) == multiset(old(servers.ring))
      ensures servers.good > 0 ==> forall i :: 0 <= i < |promoted| ==> WithGood(promoted[i], old(servers.ring))
      ensures TakeTurns(promoted, old(servers.ring))
      ensures inflightCount <= Max(maxInflight, old(inflightCount))
    {
      hide Bag, Promoted, WithGood, Ups, Rotate, Without, TakeTurns;
      k := 0;
      if r.ns.Some? {
        assert r !in waiting;
        promoted := FinishInflight(r, draws);
      } else {
        NotInflight(r);
        promoted, k := CancelWaiting(r, draws);
      }
    }

    lemma NotInflight(r: Request)
      requires Placed(heads) && r.ns.None?
      ensures r !in Bag(heads)
    {
      if r in Bag(heads) {
        var i := BagFrom(heads, r);
      }
    }

    method CancelWaiting(r: Request, draws: seq<nat>) returns (ghost promoted: seq<Request>, ghost k: nat)
      requires Valid() && servers.ring != [] && r in waiting && |draws| >= |waiting|
      modifies this, servers`ring
      ensures Valid() && servers.ring != [] && maxInflight == old(maxInflight) && k < |old(waiting)|
              && old(waiting)[k] == r
      ensures var left := Without(old(waiting), k);
              && |promoted| == Min(|left|, Max(0, maxInflight - old(inflightCount))) && waiting == left[|promoted|..]
              && forall i :: 0 <= i < |promoted| ==> Promoted(left[i], promoted[i], draws[i])
      ensures waiting == [] || inflightCount >= maxInflight
      ensures Bag(heads) == old(Bag(heads)) + multiset(promoted)
              && multiset(servers.ring) == multiset(old(servers.ring))
      ensures servers.good > 0 ==> forall i :: 0 <= i < |promoted| ==> WithGood(promoted[i], old(servers.ring))
      ensures TakeTurns(promoted, old(servers.ring))
    {
      hide Bag, Promoted, WithGood, Ups, Rotate, TakeTurns;
      var at := LocateValue(waiting, r);
      waiting := Without(waiting, at);
      waitingCount := waitingCount - 1;
      k := at;
      promoted := Pump(draws);
    }

    /** nameserver_failed: with another server up, no request that is still to be sent stays with
        the failed one. */
    method ServerFailed(id: nat)
      requires Valid()
      modifies this`heads, servers
      ensures Valid() && Reassigned(old(heads), heads, id)
      ensures servers.good > 0 && Server(id, true) in old(servers.ring) ==>
                forall i :: 0 <= i < |heads| ==> NoneUnsent(heads[i], id)
      ensures servers.good == 0 || Server(id, true) !in old(servers.ring) ==> heads == old(heads)
      ensures forall i :: 0 <= i < |heads| ==> GoodIfMoved(old(heads)[i], heads[i], servers.ring)
      ensures Server(id, true) !in servers.ring
              && servers.good == old(servers.good) - if Server(id, true) in old(servers.ring) then 1 else 0
    {
      hide Bag, Ups, Rotate;
      var changed := servers.SetState(id, false);
      if !changed || servers.good == 0 {
        return;
      }
      assert Server(id, false) in servers.ring by {
        var i :| 0 <= i < |old(servers.ring)| && old(servers.ring)[i] == Server(id, true);
        assert servers.ring[i] == Server(id, false);
      }
      ghost var before := heads;
      for i := 0 to |heads|
        invariant servers.Valid() && servers.good > 0 && Server(id, false) in servers.ring
                  && servers.good == old(servers.good) - 1
        invariant Placed(heads) && Reassigned(before, heads, id) && before == old(heads)
        invariant forall j :: 0 <= j < i ==> NoneUnsent(heads[j], id)
        invariant forall j :: 0 <= j < i ==> GoodIfMoved(before[j], heads[j], servers.ring)
        invariant forall j :: i <= j < |heads| ==> heads[j] == before[j]
      {
        ghost var ring1 := servers.ring;
        var b := ReassignBucket(heads[i], id);
        forall j | 0 <= j < i ensures GoodIfMoved(before[j], heads[j], servers.ring) {
          GoodStaysAll(before[j], heads[j], ring1, servers.ring);
        }
        ReassignedUpdate(before, heads, i, b, id);
        heads := heads[i := b];
      }
      ReassignedSize(before, heads, id);
    }

    /** evdns_base_set_max_requests_inflight: a new number of buckets, with the same requests in
        them, each in its place. */
    method SetMaxInflight(limit: int)
      requires Valid()
      modifies this`heads, this`maxInflight
      ensures Valid() && maxInflight == Max(1, limit) && |heads| == (maxInflight + 4) / 5
      ensures Bag(heads) == old(Bag(heads))
    {
      var max := if limit < 1 then 1 else limit;
      heads := Rehash(heads, (max + 4) / 5);
      maxInflight := max;
    }

    /** The requests of evdns_base_clear_nameservers_and_suspend: all that were in flight wait, in
        front of those that waited already, and the servers are gone. */
    method ClearAndSuspend()
      requires Valid()
      modifies this, servers
      ensures Valid() && servers.ring == [] && |heads| == |old(heads)| && maxInflight == old(maxInflight)
      ensures old(servers.ring) == [] ==> heads == old(heads) && waiting == old(waiting)
      ensures old(servers.ring) != [] ==> Bag(heads) == multiset{} && waiting == PutBack(Join(old(heads)), old(waiting))
      ensures inflightCount + waitingCount == old(waitingCount) + old(inflightCount)
    {
      if servers.ring == [] {
        return;
      }
      servers.Clear();
      var hs := heads;
      assert hs[0..] == hs;
      for i := 0 to |hs|
        invariant heads == hs && servers.Valid() && servers.ring == [] && inflightCount == |Bag(hs)|
                  && maxInflight == old(maxInflight)
        invariant PutBack(Join(hs[i..]), waiting) == PutBack(Join(hs), old(waiting))
        invariant waitingCount + |Bag(hs[i..])| == old(waitingCount) + |Bag(hs)| && waitingCount == |waiting|
                  && Unassigned(waiting)
      {
        hide PutBack;
        assert hs[i..][1..] == hs[i + 1..];
        PutBackConcat(hs[i], Join(hs[i + 1..]), waiting);
        SuspendBucket(hs[i]);
      }
      assert hs[|hs|..] == [] && Join([]) == [] && PutBack([], waiting) == waiting;
      EmptyPlaced(|hs|);
      hide Empty;
      heads, inflightCount := Empty(|hs|), 0;
    }

    // Each request is inserted at the end of the waiting queue, and the head is moved back to it.
    method SuspendBucket(s: seq<Request>)
      requires waitingCount == |waiting| && Unassigned(waiting)
      modifies this`waiting, this`waitingCount
      ensures waiting == PutBack(s, old(waiting)) && waitingCount == |waiting| == |old(waiting)| + |s|
              && Unassigned(waiting)
    {
      assert s[0..] == s;
      for k := 0 to |s|
        invariant PutBack(s[k..], waiting) == PutBack(s, old(waiting))
                  && waitingCount == |waiting| == |old(waiting)| + k && Unassigned(waiting)
      {
        assert s[k..][1..] == s[k + 1..];
        ghost var was := waiting;
        waitingCount := waitingCount + 1;
        waiting := waiting + [Reset(s[k])];
        waiting := [waiting[|waiting| - 1]] + waiting[..|waiting| - 1];
        assert waiting == [Reset(s[k])] + was;
      }
      assert s[|s|..] == [];
    }

    // One bucket: a request still to be sent to the failed server gets another one.
    method ReassignBucket(s: seq<Request>, id: nat) returns (b: seq<Request>)
      requires servers.Valid() && servers.good > 0 && Server(id, false) in servers.ring
      modifies servers`ring
      ensures servers.Valid() && Server(id, false) in servers.ring
              && multiset(servers.ring) == multiset(old(servers.ring))
      ensures SameButServers(s, b, id) && NoneUnsent(b, id) && GoodIfMoved(s, b, servers.ring)
    {
      hide Ups, Rotate, Distinct;
      b := s;
      for k := 0 to |s|
        invariant servers.Valid() && Server(id, false) in servers.ring
        invariant SameButServers(s, b, id) && NoneUnsent(b[..k], id) && GoodIfMoved(s, b, servers.ring)
        invariant multiset(servers.ring) == multiset(old(servers.ring))
      {
        assert b[..k + 1] == b[..k] + [b[k]];
        if b[k].txCount == 0 && b[k].ns == Some(id) {
          PickOther(servers.ring, id);
          ghost var was := servers.ring;
          var ns := servers.Pick();
          assert Server(id, false) in multiset(was);
          assert Server(id, false) in multiset(servers.ring);
          ghost var b0 := b;
          GoodStaysAll(s, b, was, servers.ring);
          b := b[k := b[k].(ns := ns)];
          assert b[..k] == b0[..k] && b[..k + 1] == b[..k] + [b[k]];
        }
      }
      assert b[..|s|] == b;
    }
  }

  // The nameserver of a request changes only if it was still to be sent to this one.
  ghost predicate Moved(r: Request, t: Request, id: nat) {
    t == r || (r.txCount == 0 && r.ns == Some(id) && t.ns.Some? && t == r.(ns := t.ns))
  }

  ghost predicate SameButServers(s: seq<Request>, t: seq<Request>, id: nat) {
    |s| == |t| && forall i :: 0 <= i < |s| ==> Moved(s[i], t[i], id)
  }

  ghost predicate Reassigned(heads: seq<seq<Request>>, heads': seq<seq<Request>>, id: nat) {
    |heads| == |heads'| && forall i :: 0 <= i < |heads| ==> SameButServers(heads[i], heads'[i], id)
  }

  ghost predicate NoneUnsent(s: seq<Request>, id: nat) {
    forall i :: 0 <= i < |s| ==> s[i].txCount == 0 ==> s[i].ns != Some(id)
  }

  // A request that was moved has a server that is up.
  ghost predicate GoodIfMoved(s: seq<Request>, t: seq<Request>, ring: seq<Server>) {
    |s| == |t| && forall i :: 0 <= i < |s| ==> t[i] == s[i] || WithGood(t[i], ring)
  }

  lemma GoodStaysAll(s: seq<Request>, t: seq<Request>, ring: seq<Server>, ring': seq<Server>)
    requires GoodIfMoved(s, t, ring) && multiset(ring) == multiset(ring')
    ensures GoodIfMoved(s, t, ring')
  {
    forall i | 0 <= i < |s| ensures t[i] == s[i] || WithGood(t[i], ring') {
      GoodStays(t[i], ring, ring');
    }
  }

  lemma ReassignedUpdate(before: seq<seq<Request>>, heads: seq<seq<Request>>, i: nat, b: seq<Request>, id: nat)
    requires Reassigned(before, heads, id) && Placed(heads) && i < |heads| && SameButServers(heads[i], b, id)
    ensures Reassigned(before, heads[i := b], id) && Placed(heads[i := b])
  {
    forall r | r in b ensures r.ns.Some? && r.transId % |heads| == i {
      var k :| 0 <= k < |b| && b[k] == r;
      assert heads[i][k] in heads[i];
    }
    PlacedUpdate(heads, i, b);
    hide Placed;
    assert SameButServers(before[i], b, id) by {
      assert SameButServers(before[i], heads[i], id);
    }
  }

  lemma {:induction false} ReassignedSize(heads: seq<seq<Request>>, heads': seq<seq<Request>>, id: nat)
    requires Reassigned(heads, heads', id)
    ensures |Bag(heads)| == |Bag(heads')|
    decreases |heads|
  {
    if heads != [] {
      ReassignedSize(heads[1..], heads'[1..], id);
    }
  }

  lemma PickOther(ring: seq<Server>, id: nat)
    requires Distinct(ring) && Server(id, false) in ring && |Ups(ring)| > 0
    ensures Ups(ring)[0].id != id
  {
    UpsIn(ring, Ups(ring)[0]);
  }

  // The first request of a list equal to r
  method LocateValue(s: seq<Request>, r: Request) returns (k: nat)
    requires r in s
    ensures k < |s| && s[k] == r
  {
    k := 0;
    while s[k] != r
      invariant k < |s| && r in s[k..]
      decreases |s| - k
    {
      assert s[k..] == [s[k]] + s[k + 1..];
      k := k + 1;
    }
  }

  // The requests of one old bucket go to their new ones, from the head on.
  method MoveBucket(heads: seq<seq<Request>>, s: seq<Request>) returns (heads': seq<seq<Request>>)
    requires Placed(heads) && forall r :: r in s ==> r.ns.Some?
    ensures |heads'| == |heads| && Placed(heads') && Bag(heads') == Bag(heads) + multiset(s)
  {
    assert heads != [];
    hide Bag, Inserted, Placed;
    heads' := heads;
    var rest := s;
    while rest != []
      invariant |heads'| == |heads| && heads' != [] && Placed(heads')
                && Bag(heads') + multiset(rest) == Bag(heads) + multiset(s)
      invariant forall r :: r in rest ==> r in s
      decreases |rest|
    {
      InsertedIs(heads', rest[0]);
      assert rest == [rest[0]] + rest[1..];
      BagAssoc(Bag(heads'), multiset{rest[0]}, multiset(rest[1..]));
      heads' := Inserted(heads', rest[0]);
      rest := rest[1..];
    }
  }

  /** The requests of the old buckets go to n new ones. */
  method Rehash(heads: seq<seq<Request>>, n: nat) returns (newHeads: seq<seq<Request>>)
    requires Placed(heads) && n > 0
    ensures |newHeads| == n && Placed(newHeads) && Bag(newHeads) == Bag(heads)
  {
    EmptyPlaced(n);
    hide Inserted, Empty, Bag;
    assert heads[0..] == heads && multiset{} + Bag(heads) == Bag(heads);
    newHeads := Empty(n);
    for i := 0 to |heads|
      invariant |newHeads| == n && Placed(newHeads) && Bag(newHeads) + Bag(heads[i..]) == Bag(heads)
    {
      BagFirst(heads, i);
      ghost var was := Bag(newHeads);
      newHeads := MoveBucket(newHeads, heads[i]);
      BagAssoc(was, multiset(heads[i]), Bag(heads[i + 1..]));
    }
    BagNone(heads);
    assert Bag(newHeads) + multiset{} == Bag(newHeads);
  }

  lemma BagFirst(heads: seq<seq<Request>>, i: nat)
    requires i < |heads|
    ensures Bag(heads[i..]) == multiset(heads[i]) + Bag(heads[i + 1..])
  {
    assert heads[i..][1..] == heads[i + 1..];
  }

  lemma BagNone(heads: seq<seq<Request>>)
    ensures Bag(heads[|heads|..]) == multiset{}
  {
  }

  function Reset(r: Request): Request {
    Request(r.id, 0, None, 0)
  }

  // The requests of all buckets, in the order in which they are visited
  function Join(heads: seq<seq<Request>>): seq<Request> {
    if heads == [] then [] else heads[0] + Join(heads[1..])
  }

  lemma {:induction false} JoinParts(a: seq<seq<Request>>, s: seq<Request>, b: seq<seq<Request>>)
    ensures Join(a + [s] + b) == Join(a) + s + Join(b) && multiset(Join(a)) == Bag(a)
    decreases |a|
  {
    if a == [] {
      assert a + [s] + b == [s] + b && ([s] + b)[1..] == b;
    } else {
      assert (a + [s] + b)[1..] == a[1..] + [s] + b;
      JoinParts(a[1..], s, b);
      assert a[0] + (Join(a[1..]) + s + Join(b)) == a[0] + Join(a[1..]) + s + Join(b);
    }
  }

  // Each request in turn goes to the front.
  function PutBack(rs: seq<Request>, waiting: seq<Request>): seq<Request>
    decreases |rs|
  {
    if rs == [] then waiting else PutBack(rs[1..], [Reset(rs[0])] + waiting)
  }

  lemma {:induction false} PutBackConcat(a: seq<Request>, b: seq<Request>, waiting: seq<Request>)
    ensures PutBack(a + b, waiting) == PutBack(b, PutBack(a, waiting))
    decreases |a|
  {
    if a == [] {
      assert a + b == b;
    } else {
      assert (a + b)[1..] == a[1..] + b;
      PutBackConcat(a[1..], b, [Reset(a[0])] + waiting);
    }
  }

  /** Those put back are in front, last visited first; those that waited already follow as
      before. */
  lemma {:induction false} PutBackIs(rs: seq<Request>, waiting: seq<Request>, k: nat)
    requires k < |rs|
    ensures var w := PutBack(rs, waiting);
              |w| == |rs| + |waiting| && w[|rs| - 1 - k] == Request(rs[k].id, 0, None, 0) && w[|rs|..] == waiting
    decreases |rs|
  {
    var more := [Reset(rs[0])] + waiting;
    var w := PutBack(rs, waiting);
    if |rs| == 1 {
      assert PutBack(rs[1..], more) == more;
    } else {
      PutBackIs(rs[1..], more, if k == 0 then 0 else k - 1);
      assert w[|rs| - 1..] == more;
      assert w[|rs|..] == w[|rs| - 1..][1..] == waiting;
      assert k == 0 ==> w[|rs| - 1] == w[|rs| - 1..][0];
    }
  }
}
