/**
 The circular list of nameservers. The list is kept from server_head on, so that moving the head
 to the next server moves the first element to the end.
 */
module NameserverRing {
  import opened Wrappers

  datatype Server = Server(id: nat, up: bool)

  function Rotate(s: seq<Server>, k: nat): (r: seq<Server>)
    requires k <= |s|
    ensures |r| == |s|
  {
    s[k..] + s[..k]
  }

  // The servers that are up, in order
  function Ups(s: seq<Server>): (r: seq<Server>)
    ensures |r| <= |s|
  {
    if s == [] then [] else if s[0].up then [s[0]] + Ups(s[1..]) else Ups(s[1..])
  }

  lemma {:induction false} UpsConcat(a: seq<Server>, b: seq<Server>)
    ensures Ups(a + b) == Ups(a) + Ups(b)
  {
    if a == [] {
      assert a + b == b;
    } else {
      assert (a + b)[1..] == a[1..] + b;
      UpsConcat(a[1..], b);
    }
  }

  lemma {:induction false} UpsNone(s: seq<Server>)
    requires forall i :: 0 <= i < |s| ==> !s[i].up
    ensures Ups(s) == []
  {
    if s != [] {
      UpsNone(s[1..]);
    }
  }

  lemma {:induction false} UpsSome(s: seq<Server>, i: nat)
    requires i < |s| && s[i].up
    ensures s[i] in Ups(s) && Ups(s) != []
  {
    if i > 0 {
      UpsSome(s[1..], i - 1);
    }
  }

  lemma {:induction false} UpsIn(s: seq<Server>, x: Server)
    requires x in Ups(s)
    ensures x in s && x.up
  {
    if x != s[0] || !s[0].up {
      UpsIn(s[1..], x);
    }
  }

  ghost predicate Distinct(s: seq<Server>) {
    forall i, j :: 0 <= i < j < |s| ==> s[i].id != s[j].id
  }

  // The first server that is up, behind k that are down, goes to the end.
  lemma UpsAfterPick(s: seq<Server>, k: nat)
    requires k < |s| && s[k].up && forall i :: 0 <= i < k ==> !s[i].up
    ensures Ups(s) != [] && Ups(s)[0] == s[k] && Ups(Rotate(s, k + 1)) == Ups(s)[1..] + [s[k]]
  {
    var a, b := s[..k], s[k + 1..];
    UpsNone(a);
    assert s == a + ([s[k]] + b);
    UpsConcat(a, [s[k]] + b);
    assert ([s[k]] + b)[1..] == b;
    assert s[..k + 1] == a + [s[k]];
    UpsConcat(b, s[..k + 1]);
    UpsConcat(a, [s[k]]);
    assert [s[k]][1..] == [];
  }

  lemma UpsRotate(s: seq<Server>, k: nat)
    requires k <= |s|
    ensures |Ups(Rotate(s, k))| == |Ups(s)|
  {
    UpsConcat(s[k..], s[..k]);
    UpsConcat(s[..k], s[k..]);
    assert s[..k] + s[k..] == s;
  }

  lemma {:induction false} UpsSet(s: seq<Server>, i: nat, up: bool)
    requires i < |s| && s[i].up != up
    ensures |Ups(s[i := s[i].(up := up)])| == |Ups(s)| + if up then 1 else -1
  {
    var s' := s[i := s[i].(up := up)];
    if i == 0 {
      assert s'[1..] == s[1..];
    } else {
      UpsSet(s[1..], i - 1, up);
      assert s'[1..] == s[1..][i - 1 := s[i].(up := up)];
    }
  }

  class Nameservers {
    var ring: seq<Server>
    var good: int

    ghost predicate Valid()
      reads this
    {
      good == |Ups(ring)| && Distinct(ring)
    }

    constructor ()
      ensures Valid() && ring == []
    {
      ring, good := [], 0;
    }

    // Move the head to the next server.
    method Advance()
      requires ring != []
      modifies this`ring
      ensures ring == old(ring)[1..] + [old(ring)[0]]
    {
      ring := ring[1..] + [ring[0]];
    }

    /** nameserver_pick: the first server that is up, within one lap; the assertion that there
        are none up when the lap is over never fires. */
    method Pick() returns (r: Option<nat>)
      requires Valid()
      modifies this`ring
      ensures Valid() && |ring| == |old(ring)| && multiset(ring) == multiset(old(ring))
      ensures r.None? <==> old(ring) == []
      ensures r.Some? && good > 0 ==>
                r.value == Ups(old(ring))[0].id && Ups(ring) == Ups(old(ring))[1..] + [Ups(old(ring))[0]]
      ensures r.Some? && good == 0 ==> ring == old(ring)[1..] + [old(ring)[0]] && r.value == ring[0].id
      ensures good > 0 ==> exists k :: 0 < k <= |ring| && ring == Rotate(old(ring), k)
      ensures good > 0 ==> r.Some? && Server(r.value, true) in ring
    {
      hide Rotate, Ups, Distinct;
      if ring == [] {
        return None;
      }
      ghost var s := ring;
      RotateNext(s, 0);
      if good == 0 {
        Advance();
        RotateKeeps(s, 1);
        UpsRotate(s, 1);
        return Some(ring[0].id);
      }
      var startedAt := ring[0].id;
      ghost var k := 0;
      while true
        invariant s == old(ring) && k < |s| && ring == Rotate(s, k)
        invariant forall i :: 0 <= i < k ==> !s[i].up
        decreases |s| - k
      {
        RotateNext(s, k);
        if ring[0].up {
          var picked := ring[0].id;
          Advance();
          UpsAfterPick(s, k);
          UpsRotate(s, k + 1);
          RotateKeeps(s, k + 1);
          assert s[k] in multiset(s);
          assert s[k] in multiset(ring);
          return Some(picked);
        }
        Advance();
        k := k + 1;
        NotRound(s, k);
        // Back at the start the source asserts that none is up; it never gets there.
        assert ring[0].id != startedAt;
      }
    }

    /** Any number of picks in a row goes round the servers that are up, in order. */
    method PickMany(m: nat) returns (picks: seq<nat>)
      requires Valid() && good > 0
      modifies this`ring
      ensures Valid() && |picks| == m && multiset(ring) == multiset(old(ring))
      ensures forall i :: 0 <= i < m ==> picks[i] == Ups(old(ring))[i % good].id
    {
      hide Rotate, Ups, Distinct;
      picks := [];
      ghost var us := Ups(ring);
      RotateNext(us, 0);
      for i := 0 to m
        invariant Valid() && |picks| == i && multiset(ring) == multiset(old(ring)) && us == Ups(old(ring))
        invariant Ups(ring) == Rotate(us, i % good)
        invariant forall j :: 0 <= j < i ==> picks[j] == us[j % good].id
      {
        RotateNext(us, i % good);
        RotateRound(us, i);
        var r := Pick();
        picks := picks + [if r.Some? then r.value else 0];
      }
    }

    // _evdns_nameserver_add_impl: a new server, taken to be up, goes behind the head.
    method Add(id: nat)
      requires Valid() && forall i :: 0 <= i < |ring| ==> ring[i].id != id
      modifies this
      ensures Valid() && multiset(ring) == multiset(old(ring)) + multiset{Server(id, true)}
      ensures good == old(good) + 1
      ensures ring == if old(ring) == [] then [Server(id, true)] else [old(ring)[0], Server(id, true)] + old(ring)[1..]
    {
      var ns := Server(id, true);
      if ring == [] {
        ring := [ns];
        assert [ns][1..] == [];
      } else {
        UpsInsert(ring, ns);
        assert ring == [ring[0]] + ring[1..];
        ring := [ring[0], ns] + ring[1..];
      }
      good := good + 1;
    }

    // The place of a server in the circle
    method Position(id: nat) returns (i: nat)
      ensures i <= |ring| && (i < |ring| ==> ring[i].id == id)
      ensures i == |ring| ==> forall j :: 0 <= j < |ring| ==> ring[j].id != id
    {
      i := 0;
      while i < |ring| && ring[i].id != id
        invariant i <= |ring| && forall j :: 0 <= j < i ==> ring[j].id != id
      {
        i := i + 1;
      }
    }

    // The state change of nameserver_failed and nameserver_up; nothing if it is no change
    method SetState(id: nat, up: bool) returns (changed: bool)
      requires Valid()
      modifies this
      ensures Valid() && |ring| == |old(ring)| && good == |Ups(ring)| >= 0
      ensures forall i :: 0 <= i < |ring| ==> ring[i] == if old(ring)[i].id == id then Server(id, up) else old(ring)[i]
      ensures changed <==> Server(id, !up) in old(ring)
      ensures good == old(good) + if !changed then 0 else if up then 1 else -1
    {
      hide Ups;
      var i := Position(id);
      changed := i < |ring| && ring[i].up != up;
      if changed {
        UpsSet(ring, i, up);
        ring := ring[i := ring[i].(up := up)];
        good := if up then good + 1 else good - 1;
      }
    }

    // What evdns_base_clear_nameservers_and_suspend does to the servers
    method Clear()
      modifies this
      ensures Valid() && ring == []
    {
      ring, good := [], 0;
    }
  }

  lemma RotateRound(s: seq<Server>, i: nat)
    requires s != []
    ensures Rotate(s, i % |s| + 1) == Rotate(s, (i + 1) % |s|)
  {
    var j := i % |s|;
    if j + 1 == |s| {
      assert s[|s|..] + s[..|s|] == s == s[0..] + s[..0];
      ModNext(i, |s|);
    } else {
      ModNext(i, |s|);
    }
  }

  lemma ModNext(i: nat, n: nat)
    requires n > 0
    ensures (i + 1) % n == if i % n + 1 == n then 0 else i % n + 1
  {
    var q := i / n;
    assert i + 1 == n * q + (i % n + 1);
    if i % n + 1 == n {
      assert i + 1 == n * (q + 1);
      ModUnique(i + 1, n, q + 1, 0);
    } else {
      ModUnique(i + 1, n, q, i % n + 1);
    }
  }

  lemma ModUnique(x: nat, n: nat, q: nat, r: nat)
    requires r < n && x == n * q + r
    ensures x % n == r
  {
    var q', r' := x / n, x % n;
    assert x == n * q' + r';
    if q' < q {
      MulMore(n, q', q);
    } else if q' > q {
      MulMore(n, q, q');
    }
  }

  lemma MulMore(n: nat, a: nat, b: nat)
    requires a < b
    ensures n * a + n <= n * b
  {
    var d := b - a - 1;
    assert b == a + 1 + d && n * d >= 0;
    assert n * (a + 1 + d) == n * a + n + n * d;
  }

  lemma UpsInsert(s: seq<Server>, ns: Server)
    requires s != [] && ns.up
    ensures |Ups([s[0], ns] + s[1..])| == |Ups(s)| + 1
  {
    var t := [s[0], ns] + s[1..];
    assert t[1..] == [ns] + s[1..] && ([ns] + s[1..])[1..] == s[1..];
  }

  lemma {:induction false} UpsDistinct(s: seq<Server>)
    requires Distinct(s)
    ensures Distinct(Ups(s))
  {
    if s != [] {
      UpsDistinct(s[1..]);
      var us, rest := Ups(s), Ups(s[1..]);
      if s[0].up {
        forall j | 0 <= j < |rest| ensures rest[j].id != s[0].id {
          UpsIn(s[1..], rest[j]);
        }
      }
    }
  }

  /** k picks over k servers that are up return each of them exactly once. */
  lemma EachOnce(s: seq<Server>, picks: seq<nat>)
    requires Distinct(s) && |picks| == |Ups(s)| > 0
    requires forall i :: 0 <= i < |picks| ==> picks[i] == Ups(s)[i % |Ups(s)|].id
    ensures forall i, j :: 0 <= i < j < |picks| ==> picks[i] != picks[j]
    ensures forall x :: x in s && x.up ==> x.id in picks
    ensures forall id :: id in picks ==> exists x :: x in s && x.up && x.id == id
  {
    UpsDistinct(s);
    var us := Ups(s);
    forall i | 0 <= i < |picks| ensures picks[i] == us[i].id && us[i] in s && us[i].up {
      ModUnique(i, |us|, 0, i);
      UpsIn(s, us[i]);
    }
    forall x | x in s && x.up ensures x.id in picks {
      var i :| 0 <= i < |s| && s[i] == x;
      UpsSome(s, i);
      var j :| 0 <= j < |us| && us[j] == x;
      assert picks[j] == x.id;
    }
  }

  lemma RotateNext(s: seq<Server>, k: nat)
    requires k < |s|
    ensures Rotate(s, 0) == s && Rotate(s, k)[0] == s[k] && Rotate(s, k)[1..] + [s[k]] == Rotate(s, k + 1)
  {
    assert s[k..][1..] == s[k + 1..] && s[..k] + [s[k]] == s[..k + 1];
  }

  // With a server up, the search does not get round to where it started.
  lemma NotRound(s: seq<Server>, k: nat)
    requires 0 < k <= |s| && Distinct(s) && |Ups(s)| > 0 && forall i :: 0 <= i < k ==> !s[i].up
    ensures k < |s| && Rotate(s, k)[0] == s[k] && s[k].id != s[0].id
  {
    if k == |s| {
      UpsNone(s);
    }
  }

  lemma RotateKeeps(s: seq<Server>, k: nat)
    requires k <= |s|
    ensures multiset(Rotate(s, k)) == multiset(s) && (Distinct(s) ==> Distinct(Rotate(s, k)))
  {
    assert s == s[..k] + s[k..];
    var r := Rotate(s, k);
    if Distinct(s) {
      forall i, j | 0 <= i < j < |r| ensures r[i].id != r[j].id {
        var i', j' := if i < |s| - k then i + k else i - (|s| - k), if j < |s| - k then j + k else j - (|s| - k);
        assert r[i] == s[i'] && r[j] == s[j'] && i' != j';
      }
    }
  }
}
