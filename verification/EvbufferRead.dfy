/**
 Reading into an evbuffer: finding room in the last chunks, laying out the vectors that
 readv fills, and taking over what arrived.
 */
module EvbufferRead {
  import opened Chunks
  import opened Evbuffers
  import opened Wrappers

  const NUM_READ_IOVEC := 4
  const EVBUFFER_MAX_READ := 4096

  // The first chunk with space, at or right after the last chunk with data
  function FirstWithSpace(cs: seq<Chunk>, l: nat): (r: nat)
    requires l < |cs|
    ensures l <= r <= l + 1
  {
    if SpaceLen(cs[l]) == 0 then l + 1 else l
  }

  // The space in at most n chunks from chunk i on
  function Room(cs: seq<Chunk>, i: nat, n: nat): nat
    decreases n
  {
    if n == 0 || i >= |cs| then 0 else SpaceLen(cs[i]) + Room(cs, i + 1, n - 1)
  }

  lemma {:induction false} RoomExtend(cs: seq<Chunk>, i: nat, n: nat)
    ensures Room(cs, i, n + 1) == Room(cs, i, n) + if i + n < |cs| then SpaceLen(cs[i + n]) else 0
    decreases n
  {
    if n > 0 && i < |cs| {
      RoomExtend(cs, i + 1, n - 1);
    }
  }

  lemma {:induction false} RoomGrows(cs: seq<Chunk>, i: nat, m: nat, n: nat)
    requires m <= n
    ensures Room(cs, i, m) <= Room(cs, i, n)
    decreases m
  {
    if m > 0 && i < |cs| {
      RoomGrows(cs, i + 1, m - 1, n - 1);
    }
  }

  // Only the n chunks from i on matter.
  lemma {:induction false} RoomFrame(cs: seq<Chunk>, cs': seq<Chunk>, i: nat, n: nat)
    requires i + n <= |cs| && i + n <= |cs'| && cs[..i + n] == cs'[..i + n]
    ensures Room(cs, i, n) == Room(cs', i, n)
    decreases n
  {
    if n > 0 {
      assert cs[i] == cs[..i + n][i] && cs'[i] == cs'[..i + n][i];
      RoomFrame(cs, cs', i + 1, n - 1);
    }
  }

  // Every empty chunk has all its space behind the data.
  ghost predicate Aligned(cs: seq<Chunk>) {
    forall i :: 0 <= i < |cs| && cs[i].off == 0 ==> cs[i].misalign == 0
  }

  lemma AlignedSame(cs: seq<Chunk>, c: nat)
    requires c < |cs| && cs[c].off == 0
    ensures Aligned(cs) ==> cs[c := cs[c].(misalign := 0)] == cs
  {
  }

  ghost predicate NothingMoved(cs: seq<Chunk>, cs': seq<Chunk>) {
    forall i :: 0 <= i < |cs| && cs[i].off > 0 ==> i < |cs'| && cs'[i] == cs[i]
  }

  lemma NothingYet(cs: seq<Chunk>)
    ensures NothingMoved(cs, cs)
  {
  }

  lemma RealignKeeps(cs0: seq<Chunk>, cs: seq<Chunk>, c: nat, l: nat)
    requires c < |cs| && cs[c].off == 0 && NothingMoved(cs0, cs) && IsLastWithData(cs, l)
    ensures var cs' := cs[c := cs[c].(misalign := 0)]; NothingMoved(cs0, cs') && IsLastWithData(cs', l)
  {
  }

  // An empty chunk realigned: the list stands for the same bytes.
  lemma FlatRealign(cs: seq<Chunk>, i: nat)
    requires i < |cs| && cs[i].off == 0
    ensures Flat(cs[i := cs[i].(misalign := 0)]) == Flat(cs)
  {
    hide Flat;
    FlatAt(cs, i);
    FlatUpdate(cs, i, cs[i].(misalign := 0));
  }

  // The space of one chunk, and whether the chunk counts; an empty one is realigned.
  method CountSpace(buf: Evbuffer, c: nat, ghost cs0: seq<Chunk>) returns (space: nat, counts: bool)
    requires buf.Valid() && c < |buf.chains| && NothingMoved(cs0, buf.chains)
    modifies buf`chains
    ensures buf.Valid() && buf.Contents() == old(buf.Contents()) && NothingMoved(cs0, buf.chains)
    ensures |buf.chains| == |old(buf.chains)|
            && forall i :: 0 <= i < |buf.chains| && i != c ==> buf.chains[i] == old(buf.chains)[i]
    ensures buf.chains[c].off == old(buf.chains)[c].off && |buf.chains[c].mem| == |old(buf.chains)[c].mem|
    ensures space == SpaceLen(buf.chains[c]) && counts == (space > 0) && (buf.chains[c].off == 0 ==> counts)
    ensures Aligned(old(buf.chains)) ==> buf.chains == old(buf.chains)
  {
    hide Flat, Aligned, NothingMoved;
    if buf.chains[c].off == 0 {
      FlatRealign(buf.chains, c);
      AlignedSame(buf.chains, c);
      RealignKeeps(cs0, buf.chains, c, buf.lastWithDatap);
      buf.chains := buf.chains[c := buf.chains[c].(misalign := 0)];
    }
    space := SpaceLen(buf.chains[c]);
    counts := space > 0;
  }

  // The chunks before c have been counted; now chunk c is.
  lemma ScanStep(before: seq<Chunk>, cs: seq<Chunk>, l: nat, c: nat, used: nat, avail: nat)
    requires l <= c < |cs| == |before| && forall i :: 0 <= i < |cs| && i != c ==> cs[i] == before[i]
    requires c > l ==>
               FirstWithSpace(before, l) + used == c && avail == Room(before, FirstWithSpace(before, l), used)
                 && SpaceLen(cs[c]) > 0
    requires c == l ==> used == 0 && avail == 0
    ensures var counts, space := SpaceLen(cs[c]) > 0, SpaceLen(cs[c]);
      var used', avail' := if counts then used + 1 else used, if counts then avail + space else avail;
      var first := FirstWithSpace(cs, l);
      first + used' == c + 1 && avail' == Room(cs, first, used')
  {
    var first := FirstWithSpace(cs, l);
    if c > l {
      assert cs[..first + used] == before[..first + used];
      RoomFrame(before, cs, first, used);
      RoomExtend(cs, first, used);
    } else if SpaceLen(cs[c]) > 0 {
      RoomExtend(cs, first, 0);
    }
  }

  ghost predicate SameOffs(cs: seq<Chunk>, cs': seq<Chunk>) {
    |cs'| == |cs| && forall i :: 0 <= i < |cs| ==> cs'[i].off == cs[i].off
  }

  // An empty chunk at the link has space.
  ghost predicate Usable(cs: seq<Chunk>, l: nat) {
    l < |cs| && (cs[l].off == 0 ==> SpaceLen(cs[l]) > 0)
  }

  lemma OffsSame(cs: seq<Chunk>)
    ensures SameOffs(cs, cs)
  {
  }

  lemma ScanKeeps(cs0: seq<Chunk>, before: seq<Chunk>, cs: seq<Chunk>, c: nat, l: nat)
    requires SameOffs(cs0, before) && c < |cs| == |before| && cs[c].off == before[c].off
    requires (cs[c].off == 0 ==> SpaceLen(cs[c]) > 0) && forall i :: 0 <= i < |cs| && i != c ==> cs[i] == before[i]
    ensures SameOffs(cs0, cs) && (c == l || Usable(before, l) ==> Usable(cs, l))
  {
  }

  // How much of datlen fits in the first n chunks with space; empty chunks are realigned.
  method ScanSpace(buf: Evbuffer, datlen: nat, n: nat) returns (enough: bool, avail: nat, used: nat)
    requires buf.Valid() && buf.chains != [] && n > 0
    modifies buf`chains
    ensures buf.Valid() && buf.Contents() == old(buf.Contents())
    ensures |buf.chains| == |old(buf.chains)| && NothingMoved(old(buf.chains), buf.chains)
    ensures enough ==> Room(buf.chains, FirstWithSpace(buf.chains, buf.lastWithDatap), n) >= datlen
    ensures !enough ==> avail == Room(buf.chains, FirstWithSpace(buf.chains, buf.lastWithDatap), used) < datlen
    ensures !enough ==> used == n || (used < n && FirstWithSpace(buf.chains, buf.lastWithDatap) + used == |buf.chains|)
    ensures !enough ==> FirstWithSpace(buf.chains, buf.lastWithDatap) + used <= |buf.chains|
    ensures Aligned(old(buf.chains)) ==> buf.chains == old(buf.chains)
    ensures SameOffs(old(buf.chains), buf.chains) && Usable(buf.chains, buf.lastWithDatap)
  {
    NothingYet(buf.chains);
    hide Flat, Aligned, NothingMoved, Room, SameOffs, Usable;
    OffsSame(buf.chains);
    var l := buf.lastWithDatap;
    var c := l;
    enough, avail, used := false, 0, 0;
    while c < |buf.chains|
      invariant l <= c <= |buf.chains| == |old(buf.chains)| && buf.Valid() && buf.Contents() == old(buf.Contents())
      invariant NothingMoved(old(buf.chains), buf.chains)
      invariant c == l ==> used == 0 && avail == 0
      invariant c > l ==>
                  FirstWithSpace(buf.chains, l) + used == c
                    && avail == Room(buf.chains, FirstWithSpace(buf.chains, l), used)
      invariant used < n && (c > l ==> avail < datlen)
      invariant SameOffs(old(buf.chains), buf.chains) && (c > l ==> Usable(buf.chains, l))
      invariant Aligned(old(buf.chains)) ==> buf.chains == old(buf.chains)
    {
      ghost var before := buf.chains;
      var space, counts := CountSpace(buf, c, old(buf.chains));
      ScanStep(before, buf.chains, l, c, used, avail);
      ScanKeeps(old(buf.chains), before, buf.chains, c, l);
      if counts {
        avail, used := avail + space, used + 1;
      }
      c := c + 1;
      if avail >= datlen {
        RoomGrows(buf.chains, FirstWithSpace(buf.chains, l), used, n);
        enough := true;
        return;
      }
      if used == n {
        return;
      }
    }
  }

  // Chunk c put after the chunks up to i, behind which there is no data
  lemma FlatCutAndAdd(cs: seq<Chunk>, i: nat, c: Chunk)
    requires i <= |cs| && c.off == 0 && forall k :: i <= k < |cs| ==> cs[k].off == 0
    ensures Flat(cs[..i] + [c]) == Flat(cs)
  {
    hide Flat;
    FlatReplaceTail(cs, i, c);
    DataLen(c);
  }

  // One more chunk at the end adds its space to what the last `used` chunks have.
  lemma RoomAppend(cs: seq<Chunk>, i: nat, used: nat, c: Chunk, n: nat)
    requires i + used == |cs| && used < n
    ensures Room(cs + [c], i, n) >= Room(cs, i, used) + SpaceLen(c)
  {
    RoomFrame(cs, cs + [c], i, used);
    RoomExtend(cs + [c], i, used);
    RoomGrows(cs + [c], i, used + 1, n);
  }

  // A new chunk for `size` bytes has been put behind the others.
  ghost predicate OneMore(cs: seq<Chunk>, cs': seq<Chunk>, size: nat) {
    && |cs'| == |cs| + 1 && cs <= cs'
    && cs'[|cs|].off == 0 && cs'[|cs|].misalign == 0 && |cs'[|cs|].mem| == ChunkSize(size)
  }

  // Add a chunk behind the others.
  method AppendEmpty(buf: Evbuffer, size: nat, used: nat, n: nat)
    requires buf.Valid() && buf.chains != [] && used < n
    requires FirstWithSpace(buf.chains, buf.lastWithDatap) + used == |buf.chains|
    modifies buf`chains, buf`last
    ensures buf.Valid() && buf.Contents() == old(buf.Contents()) && NothingMoved(old(buf.chains), buf.chains)
    ensures buf.chains != [] && Room(buf.chains, FirstWithSpace(buf.chains, buf.lastWithDatap), n)
            >= old(Room(buf.chains, FirstWithSpace(buf.chains, buf.lastWithDatap), used)) + size
    ensures OneMore(old(buf.chains), buf.chains, size) && buf.lastWithDatap == old(buf.lastWithDatap)
  {
    hide Flat;
    var tmp := NewChunk(size);
    assert buf.chains[..|buf.chains|] == buf.chains;
    FlatCutAndAdd(buf.chains, |buf.chains|, tmp);
    RoomAppend(buf.chains, FirstWithSpace(buf.chains, buf.lastWithDatap), used, tmp, n);
    buf.chains := buf.chains + [tmp];
    buf.last := buf.last + 1;
  }

  // Free all the empty chunks and put one in their place.
  method ReplaceEmpty(buf: Evbuffer, datlen: nat, n: nat)
    requires buf.Valid() && buf.chains != [] && n >= 2
    requires buf.chains[buf.lastWithDatap].off > 0 ==> SpaceLen(buf.chains[buf.lastWithDatap]) <= datlen
    modifies buf`chains, buf`last, buf`lastWithDatap
    ensures buf.Valid() && buf.Contents() == old(buf.Contents()) && NothingMoved(old(buf.chains), buf.chains)
    ensures buf.chains != [] && Room(buf.chains, FirstWithSpace(buf.chains, buf.lastWithDatap), n) >= datlen
    ensures Usable(buf.chains, buf.lastWithDatap) && (DataFirst(old(buf.chains)) ==> DataFirst(buf.chains))
  {
    hide Flat;
    var l := buf.lastWithDatap;
    var keep, avail := l + 1, SpaceLen(buf.chains[l]);
    if buf.chains[l].off == 0 {
      keep, avail := 0, 0;
    }
    var tmp := NewChunk(datlen - avail);
    FlatCutAndAdd(buf.chains, keep, tmp);
    buf.chains := buf.chains[..keep] + [tmp];
    buf.last := keep;
    if keep == 0 {
      buf.lastWithDatap := 0;
    }
    ghost var first := FirstWithSpace(buf.chains, buf.lastWithDatap);
    assert Room(buf.chains, keep, 1) == SpaceLen(tmp);
    RoomGrows(buf.chains, keep, 1, n - 1);
    RoomGrows(buf.chains, keep, 1, n);
  }

  // The first n chunks with space are all there are, and their space is not enough.
  ghost predicate Short(cs: seq<Chunk>, l: nat, datlen: nat, n: nat) {
    l < |cs| && |cs| - FirstWithSpace(cs, l) < n
      && Room(cs, FirstWithSpace(cs, l), |cs| - FirstWithSpace(cs, l)) < datlen
  }

  // Then one chunk is added for what is missing.
  ghost predicate Grown(cs: seq<Chunk>, l: nat, cs': seq<Chunk>, datlen: nat, n: nat) {
    Aligned(cs) && Short(cs, l, datlen, n) ==>
      var first := FirstWithSpace(cs, l);
      OneMore(cs, cs', datlen - Room(cs, first, |cs| - first))
  }

  // Behind a compact list with less space than that there is an empty chunk.
  ghost predicate OneExtra(cs: seq<Chunk>, l: nat, datlen: nat) {
    && l + 1 < |cs| && CompactList(cs[..|cs| - 1]) && cs[|cs| - 1].off == 0
    && FirstWithSpace(cs, l) <= |cs| - 1 && Room(cs, FirstWithSpace(cs, l), |cs| - 1 - FirstWithSpace(cs, l)) < datlen
  }

  lemma ExtraOne(cs: seq<Chunk>, l: nat, c: Chunk, used: nat, datlen: nat)
    requires l < |cs| && CompactList(cs) && c.off == 0 && FirstWithSpace(cs, l) + used == |cs|
    requires Room(cs, FirstWithSpace(cs, l), used) < datlen
    ensures OneExtra(cs + [c], l, datlen)
  {
    assert (cs + [c])[..|cs|] == cs;
    RoomFrame(cs, cs + [c], FirstWithSpace(cs, l), used);
  }

  // The chunks with space do not have enough of it: one more, or one instead of the empty ones
  method ExpandMore(buf: Evbuffer, datlen: nat, n: nat, avail: nat, used: nat)
    requires buf.Valid() && buf.chains != [] && n >= 2 && Usable(buf.chains, buf.lastWithDatap)
    requires var first := FirstWithSpace(buf.chains, buf.lastWithDatap);
      && avail == Room(buf.chains, first, used) < datlen && first + used <= |buf.chains|
      && (used == n || (used < n && first + used == |buf.chains|))
    modifies buf`chains, buf`last, buf`lastWithDatap
    ensures buf.Valid() && buf.Contents() == old(buf.Contents()) && NothingMoved(old(buf.chains), buf.chains)
    ensures buf.chains != [] && Room(buf.chains, FirstWithSpace(buf.chains, buf.lastWithDatap), n) >= datlen
    ensures used < n ==> OneMore(old(buf.chains), buf.chains, datlen - avail)
    ensures Usable(buf.chains, buf.lastWithDatap) && (DataFirst(old(buf.chains)) ==> DataFirst(buf.chains))
    ensures old(buf.Compact()) ==> OneExtra(buf.chains, buf.lastWithDatap, datlen)
  {
    hide Flat, OneExtra, NothingMoved;
    ghost var cs := buf.chains;
    if buf.Compact() {
      CompactWithData(cs, buf.lastWithDatap);
    }
    if used < n {
      AppendEmpty(buf, datlen - avail, used, n);
      if CompactList(cs) {
        assert buf.chains == cs + [buf.chains[|cs|]];
        ExtraOne(cs, buf.lastWithDatap, buf.chains[|cs|], used, datlen);
      }
    } else {
      ghost var first := FirstWithSpace(buf.chains, buf.lastWithDatap);
      RoomGrows(buf.chains, first, 1, used);
      assert first == buf.lastWithDatap ==> Room(buf.chains, first, 1) == SpaceLen(buf.chains[first]);
      ReplaceEmpty(buf, datlen, n);
    }
  }

  /** _evbuffer_expand_fast: room for datlen bytes in at most n chunks, without moving data. If fewer
      than n chunks have space and it is not enough, one is added for what is missing. */
  method ExpandFast(buf: Evbuffer, datlen: nat, n: nat)
    requires buf.Valid() && n >= 2
    modifies buf`chains, buf`last, buf`lastWithDatap, buf`totalLen
    ensures buf.Valid() && buf.Contents() == old(buf.Contents()) && NothingMoved(old(buf.chains), buf.chains)
    ensures buf.chains != [] && Room(buf.chains, FirstWithSpace(buf.chains, buf.lastWithDatap), n) >= datlen
    ensures Grown(old(buf.chains), old(buf.lastWithDatap), buf.chains, datlen, n)
    ensures Usable(buf.chains, buf.lastWithDatap) && (DataFirst(old(buf.chains)) ==> DataFirst(buf.chains))
    ensures old(buf.Compact()) ==> buf.Compact() || OneExtra(buf.chains, buf.lastWithDatap, datlen)
  {
    hide Flat, OneExtra;
    if buf.last == -1 {
      var first := NewChunk(datlen);
      DataLen(first);
      buf.ChainInsert(first);
      RoomGrows(buf.chains, 0, 1, n);
      assert Room(buf.chains, 0, 1) == SpaceLen(first);
      return;
    }
    var enough, avail, used := ScanSpace(buf, datlen, n);
    if Short(buf.chains, buf.lastWithDatap, datlen, n) {
      var first := FirstWithSpace(buf.chains, buf.lastWithDatap);
      RoomPastEnd(buf.chains, first, |buf.chains| - first, n);
    }
    if enough {
      return;
    }
    ExpandMore(buf, datlen, n, avail, used);
  }

  // Chunks past the end of the list add nothing.
  lemma {:induction false} RoomPastEnd(cs: seq<Chunk>, i: nat, k: nat, n: nat)
    requires k <= n && i + k >= |cs|
    ensures Room(cs, i, k) == Room(cs, i, n)
    decreases k
  {
    if k > 0 && i < |cs| {
      RoomPastEnd(cs, i + 1, k - 1, n - 1);
    }
  }

  function Sum(v: seq<nat>): nat {
    if v == [] then 0 else Sum(v[..|v| - 1]) + v[|v| - 1]
  }

  /** _evbuffer_read_setup_vecs: the lengths of the vectors; None stands for -1. It never runs
      off the list when the room is there, and exact vectors add up to what was asked. */
  method SetupVecs(cs: seq<Chunk>, l: nat, howmuch: int, n: nat, exact: bool) returns (r: Option<seq<nat>>)
    requires l < |cs| && Room(cs, FirstWithSpace(cs, l), n) >= howmuch
    ensures r.None? <==> howmuch < 0
    ensures r.Some? ==> var vecs, first := r.value, FirstWithSpace(cs, l);
      && |vecs| <= n && first + |vecs| <= |cs|
      && (if exact then Sum(vecs) == howmuch else howmuch <= Sum(vecs) == Room(cs, first, |vecs|))
      && howmuch <= Room(cs, first, |vecs|)
      && (forall i ::
            0 <= i < |vecs| ==>
              vecs[i] <= SpaceLen(cs[first + i]) && (i + 1 < |vecs| ==> vecs[i] == SpaceLen(cs[first + i])))
  {
    if howmuch < 0 {
      return None;
    }
    var first := FirstWithSpace(cs, l);
    var vecs: seq<nat> := [];
    var soFar := 0;
    while |vecs| < n && soFar < howmuch
      invariant |vecs| <= n && first + |vecs| <= |cs| && soFar == Sum(vecs)
      invariant soFar < howmuch ==> soFar == Room(cs, first, |vecs|)
      invariant soFar >= howmuch ==> howmuch <= Room(cs, first, |vecs|)
      invariant if exact then soFar <= howmuch else soFar == Room(cs, first, |vecs|)
      invariant forall i :: 0 <= i < |vecs| ==>
                  vecs[i] <= SpaceLen(cs[first + i])
                    && (soFar < howmuch || i + 1 < |vecs| ==> vecs[i] == SpaceLen(cs[first + i]))
      decreases n - |vecs|
    {
      if first + |vecs| >= |cs| {
        RoomPastEnd(cs, first, |vecs|, n);
        assert false;
      }
      RoomExtend(cs, first, |vecs|);
      var avail := SpaceLen(cs[first + |vecs|]);
      if avail > howmuch - soFar && exact {
        avail := howmuch - soFar;
      }
      assert (vecs + [avail])[..|vecs|] == vecs;
      vecs, soFar := vecs + [avail], soFar + avail;
    }
    r := Some(vecs);
  }

  // ---- What readv writes ----

  // The space of n chunks from chunk i on, as readv sees it
  ghost function Spaces(cs: seq<Chunk>, i: nat, n: nat): (r: seq<Byte>)
    ensures |r| == Room(cs, i, n)
    decreases n
  {
    if n == 0 || i >= |cs| then [] else SpaceBytes(cs[i]) + Spaces(cs, i + 1, n - 1)
  }

  // What readv may change: only memory behind the data
  ghost predicate SameButSpace(cs: seq<Chunk>, cs': seq<Chunk>) {
    |cs| == |cs'| && forall i :: 0 <= i < |cs| ==>
      cs'[i].off == cs[i].off && cs'[i].misalign == cs[i].misalign && |cs'[i].mem| == |cs[i].mem|
        && Data(cs'[i]) == Data(cs[i])
  }

  lemma {:induction false} SameButSpaceFlat(cs: seq<Chunk>, cs': seq<Chunk>)
    requires SameButSpace(cs, cs')
    ensures Flat(cs) == Flat(cs')
    decreases |cs|
  {
    hide Data;
    if cs != [] {
      SameButSpaceFlat(cs[1..], cs'[1..]);
    }
  }

  lemma {:induction false} SameButSpaceRoom(cs: seq<Chunk>, cs': seq<Chunk>, i: nat, n: nat)
    requires SameButSpace(cs, cs')
    ensures Room(cs, i, n) == Room(cs', i, n)
    decreases n
  {
    hide Data;
    if n > 0 && i < |cs| {
      SameButSpaceRoom(cs, cs', i + 1, n - 1);
    }
  }

  lemma {:induction false} SpacesExtend(cs: seq<Chunk>, i: nat, n: nat)
    ensures Spaces(cs, i, n + 1) == Spaces(cs, i, n) + if i + n < |cs| then SpaceBytes(cs[i + n]) else []
    decreases n
  {
    hide SpaceBytes;
    if n > 0 && i < |cs| {
      SpacesExtend(cs, i + 1, n - 1);
      AddAssoc(SpaceBytes(cs[i]), Spaces(cs, i + 1, n - 1), if i + n < |cs| then SpaceBytes(cs[i + n]) else []);
    }
  }

  // Chunks outside do not matter.
  lemma {:induction false} SpacesFrame(cs: seq<Chunk>, x: Chunk, c: nat, i: nat, n: nat)
    requires c < |cs| && (c < i || i + n <= c)
    ensures Spaces(cs[c := x], i, n) == Spaces(cs, i, n)
    decreases n
  {
    hide SpaceBytes;
    if n > 0 && i < |cs| {
      SpacesFrame(cs, x, c, i + 1, n - 1);
    }
  }

  // The vectors are chunks from `first` on, filled up but for the last.
  ghost predicate VecsFit(cs: seq<Chunk>, first: nat, vecs: seq<nat>) {
    && first + |vecs| <= |cs|
    && forall i :: 0 <= i < |vecs| ==>
         vecs[i] <= SpaceLen(cs[first + i]) && (i + 1 < |vecs| ==> vecs[i] == SpaceLen(cs[first + i]))
  }

  /** readv: the bytes go into the vectors one after the other. Since every vector but the last takes
      all the space of its chunk, they are what the space of those chunks begins with. */
  method Scatter(before: seq<Chunk>, first: nat, vecs: seq<nat>, data: seq<Byte>) returns (cs: seq<Chunk>)
    requires VecsFit(before, first, vecs) && |data| <= Sum(vecs)
    ensures SameButSpace(before, cs) && data <= Spaces(cs, first, |vecs|)
  {
    hide Data, Scribble, SpaceBytes, SameButSpace, Spaces, Room, VecsFit;
    cs := before;
    SameSpace(cs);
    VecsInList(before, first, vecs);
    var i, done := 0, 0;
    NoSpaces(cs, first);
    while i < |vecs| && done < |data|
      invariant i <= |vecs| && done <= |data| && SameButSpace(before, cs) && |cs| == |before|
      invariant done == Min(|data|, Sum(vecs[..i])) && data[..done] <= Spaces(cs, first, i)
      invariant done < |data| ==> done == Room(cs, first, i)
    {
      assert vecs[..i + 1][..i] == vecs[..i];
      var n := Min(vecs[i], |data| - done);
      VecAt(before, cs, first, vecs, i);
      ScatterStep(before, cs, first, i, data, done, n);
      cs := cs[first + i := Scribble(cs[first + i], data[done..done + n])];
      done, i := done + n, i + 1;
    }
    assert vecs[..|vecs|] == vecs;
    SpacesPrefix(cs, first, i, |vecs|);
  }

  lemma SameSpace(cs: seq<Chunk>)
    ensures SameButSpace(cs, cs)
  {
  }

  lemma NoSpaces(cs: seq<Chunk>, i: nat)
    ensures Spaces(cs, i, 0) == [] && Room(cs, i, 0) == 0
  {
  }

  lemma VecsInList(cs: seq<Chunk>, first: nat, vecs: seq<nat>)
    requires VecsFit(cs, first, vecs)
    ensures first + |vecs| <= |cs|
  {
  }

  lemma VecAt(before: seq<Chunk>, cs: seq<Chunk>, first: nat, vecs: seq<nat>, i: nat)
    requires VecsFit(before, first, vecs) && i < |vecs| && SameButSpace(before, cs)
    ensures first + i < |cs| && vecs[i] <= SpaceLen(cs[first + i])
            && (i + 1 < |vecs| ==> vecs[i] == SpaceLen(cs[first + i]))
  {
    hide Data;
  }

  // One vector
  lemma ScatterStep(before: seq<Chunk>, cs: seq<Chunk>, first: nat, i: nat, data: seq<Byte>, done: nat, n: nat)
    requires SameButSpace(before, cs) && first + i < |cs| && done + n <= |data| && n <= SpaceLen(cs[first + i])
    requires data[..done] <= Spaces(cs, first, i) && done == Room(cs, first, i)
    ensures var cs' := cs[first + i := Scribble(cs[first + i], data[done..done + n])];
      && SameButSpace(before, cs') && data[..done + n] <= Spaces(cs', first, i + 1)
      && Room(cs', first, i + 1) == done + SpaceLen(cs[first + i])
  {
    var c := first + i;
    var x := Scribble(cs[c], data[done..done + n]);
    var cs' := cs[c := x];
    ScribbledSame(before, cs, c, data[done..done + n]);
    hide Data, Scribble, SpaceBytes, SameButSpace, Spaces, Room;
    SpacesFrame(cs, x, c, first, i);
    SpacesExtend(cs', first, i);
    Placed(data, done, n, Spaces(cs, first, i), SpaceBytes(x));
  }

  lemma ScribbledSame(before: seq<Chunk>, cs: seq<Chunk>, c: nat, bytes: seq<Byte>)
    requires SameButSpace(before, cs) && c < |cs| && |bytes| <= SpaceLen(cs[c])
    ensures SameButSpace(before, cs[c := Scribble(cs[c], bytes)])
  {
    hide Data, Scribble;
  }

  lemma Placed(data: seq<Byte>, done: nat, n: nat, front: seq<Byte>, space: seq<Byte>)
    requires done + n <= |data| && data[..done] <= front && |front| == done && data[done..done + n] <= space
    ensures data[..done + n] <= front + space
  {
    assert data[..done + n] == data[..done] + data[done..done + n];
  }

  lemma {:induction false} SpacesPrefix(cs: seq<Chunk>, i: nat, m: nat, n: nat)
    requires m <= n
    ensures Spaces(cs, i, m) <= Spaces(cs, i, n)
    decreases n
  {
    hide SpaceBytes;
    if m < n {
      SpacesPrefix(cs, i, m, n - 1);
      SpacesExtend(cs, i, n - 1);
    }
  }

  lemma FlatRaiseAt(cs: seq<Chunk>, c: nat, n: nat)
    requires c < |cs| && n <= SpaceLen(cs[c]) && forall k :: c < k < |cs| ==> cs[k].off == 0
    ensures Flat(cs[c := Raise(cs[c], n)]) == Flat(cs) + SpaceBytes(cs[c])[..n]
  {
    hide Flat, Data, Raise, SpaceBytes;
    FlatAt(cs, c);
    FlatUpdate(cs, c, Raise(cs[c], n));
    FlatEmpty(cs[c + 1..]);
    AddAssoc(Flat(cs[..c]), Data(cs[c]), SpaceBytes(cs[c])[..n]);
  }

  // Chunks from `first` on have been filled up, before c.
  ghost predicate Filled(cs0: seq<Chunk>, first: nat, cs: seq<Chunk>, c: nat) {
    && first <= c && |cs| == |cs0|
    && (forall k :: 0 <= k < |cs| && first <= k < c ==> cs[k].off == cs0[k].off + SpaceLen(cs0[k]))
    && forall k :: 0 <= k < |cs| && !(first <= k < c) ==> cs[k] == cs0[k]
  }

  // `remaining` of the n bytes, in the space of the vecs chunks from c on, are still to be taken over.
  ghost predicate BytesLeft(cs0: seq<Chunk>, all: seq<Byte>, cs: seq<Chunk>, c: nat, vecs: nat, remaining: nat) {
    0 < remaining <= Room(cs0, c, vecs) && Flat(cs) + Spaces(cs0, c, vecs)[..remaining] == all
  }

  // The chunks before e are full, e is the last one that took bytes, and it took some of the n.
  ghost predicate Raised(cs0: seq<Chunk>, first: nat, n: nat, cs: seq<Chunk>, e: nat) {
    && first <= e < |cs| == |cs0| && Room(cs0, first, e - first) < n <= Room(cs0, first, e - first + 1)
    && (forall k :: 0 <= k < |cs| && first <= k < e ==> cs[k].off == cs0[k].off + SpaceLen(cs0[k]))
    && (forall k :: 0 <= k < |cs| && !(first <= k <= e) ==> cs[k].off == cs0[k].off)
    && cs[e].off > cs0[e].off
  }

  lemma FilledNone(cs: seq<Chunk>, first: nat)
    ensures Filled(cs, first, cs, first)
  {
  }

  lemma BytesAt(cs0: seq<Chunk>, all: seq<Byte>, cs: seq<Chunk>, c: nat, vecs: nat, remaining: nat)
    requires BytesLeft(cs0, all, cs, c, vecs, remaining)
    ensures c < |cs0| && vecs > 0 && 0 < remaining
  {
  }

  // Behind c there is no data yet.
  lemma NoneBehind(cs0: seq<Chunk>, l: nat, first: nat, cs: seq<Chunk>, c: nat)
    requires Filled(cs0, first, cs, c) && IsLastWithData(cs0, l) && l <= first && c < |cs|
    ensures cs[c] == cs0[c] && forall k :: c < k < |cs| ==> cs[k].off == 0
  {
  }

  lemma FilledNext(cs0: seq<Chunk>, first: nat, cs: seq<Chunk>, c: nat)
    requires Filled(cs0, first, cs, c) && c < |cs|
    ensures Filled(cs0, first, cs[c := Raise(cs[c], SpaceLen(cs[c]))], c + 1)
  {
  }

  lemma BytesNext(cs0: seq<Chunk>, all: seq<Byte>, cs: seq<Chunk>, c: nat, vecs: nat, remaining: nat)
    requires BytesLeft(cs0, all, cs, c, vecs, remaining) && |cs| == |cs0| && c < |cs| && cs[c] == cs0[c]
    requires SpaceLen(cs[c]) < remaining && vecs > 0 && forall k :: c < k < |cs| ==> cs[k].off == 0
    ensures var space := SpaceLen(cs[c]);
      BytesLeft(cs0, all, cs[c := Raise(cs[c], space)], c + 1, vecs - 1, remaining - space)
  {
    var space, rest := SpaceLen(cs[c]), Spaces(cs0, c + 1, vecs - 1);
    hide Flat, Data, Raise, SpaceBytes;
    FlatRaiseAt(cs, c, space);
    TakeOver(SpaceBytes(cs[c]), rest, remaining);
    AddAssoc(Flat(cs), SpaceBytes(cs[c]), rest[..remaining - space]);
    assert SpaceBytes(cs[c])[..space] == SpaceBytes(cs[c]);
  }

  lemma BytesLast(cs0: seq<Chunk>, all: seq<Byte>, cs: seq<Chunk>, c: nat, vecs: nat, remaining: nat)
    requires BytesLeft(cs0, all, cs, c, vecs, remaining) && |cs| == |cs0| && c < |cs| && cs[c] == cs0[c]
    requires remaining <= SpaceLen(cs[c]) && forall k :: c < k < |cs| ==> cs[k].off == 0
    ensures Flat(cs[c := Raise(cs[c], remaining)]) == all
  {
    var rest := Spaces(cs0, c + 1, vecs - 1);
    hide Flat, Data, Raise, SpaceBytes;
    FlatRaiseAt(cs, c, remaining);
    assert (SpaceBytes(cs[c]) + rest)[..remaining] == SpaceBytes(cs[c])[..remaining];
  }

  lemma FilledLast(cs0: seq<Chunk>, l: nat, first: nat, n: nat, cs: seq<Chunk>, c: nat, remaining: nat)
    requires Filled(cs0, first, cs, c) && IsLastWithData(cs0, l) && l <= first && c < |cs|
    requires 0 < remaining <= SpaceLen(cs[c]) && Room(cs0, first, c - first) + remaining == n
    ensures var cs' := cs[c := Raise(cs[c], remaining)]; Raised(cs0, first, n, cs', c) && IsLastWithData(cs', c)
  {
    RoomExtend(cs0, first, c - first);
  }

  /** The loop after readv: the first n bytes of the space of the chunks become data. */
  method Commit(buf: Evbuffer, nvecs: nat, n: nat)
    requires buf.Valid() && buf.chains != [] && n > 0
    requires n <= Room(buf.chains, FirstWithSpace(buf.chains, buf.lastWithDatap), nvecs)
    modifies buf`chains, buf`lastWithDatap, buf`totalLen
    ensures buf.Valid()
    ensures buf.Contents() ==
              old(buf.Contents()) + old(Spaces(buf.chains, FirstWithSpace(buf.chains, buf.lastWithDatap), nvecs))[..n]
    ensures Raised(old(buf.chains), old(FirstWithSpace(buf.chains, buf.lastWithDatap)), n, buf.chains,
                   buf.lastWithDatap)
  {
    hide Flat, Data, Raise, SpaceBytes, Spaces, Room, Filled, BytesLeft, Raised, IsLastWithData, FirstWithSpace;
    ghost var cs0, l := buf.chains, buf.lastWithDatap;
    LinkInList(cs0, l);
    var first := FirstWithSpace(buf.chains, buf.lastWithDatap);
    var c, remaining, i := first, n, 0;
    ghost var all := buf.Contents() + Spaces(cs0, first, nvecs)[..n];
    assert BytesLeft(cs0, all, cs0, first, nvecs, n) by {
      BytesStart(cs0, first, nvecs, n);
    }
    FilledNone(cs0, first);
    NoSpaces(cs0, first);
    BytesAt(cs0, all, buf.chains, c, nvecs, remaining);
    while i < nvecs
      invariant c == first + i && i < nvecs && 0 < remaining && Room(cs0, first, i) + remaining == n
      invariant Filled(cs0, first, buf.chains, c) && BytesLeft(cs0, all, buf.chains, c, nvecs - i, remaining)
      invariant c < |buf.chains| == |cs0|
      invariant buf.lastWithDatap == l && buf.last == old(buf.last) && buf.totalLen == old(buf.totalLen)
    {
      NoneBehind(cs0, l, first, buf.chains, c);
      var chain := buf.chains[c];
      var space := SpaceLen(chain);
      if space < remaining {
        RoomExtend(cs0, first, i);
        FilledNext(cs0, first, buf.chains, c);
        BytesNext(cs0, all, buf.chains, c, nvecs - i, remaining);
        buf.chains := buf.chains[c := Raise(chain, space)];
        remaining := remaining - space;
      } else {
        FilledLast(cs0, l, first, n, buf.chains, c, remaining);
        BytesLast(cs0, all, buf.chains, c, nvecs - i, remaining);
        buf.chains := buf.chains[c := Raise(chain, remaining)];
        buf.lastWithDatap := c;
        buf.totalLen := buf.totalLen + n;
        return;
      }
      c, i := c + 1, i + 1;
      BytesAt(cs0, all, buf.chains, c, nvecs - i, remaining);
    }
    assert false;
  }

  lemma LinkInList(cs: seq<Chunk>, l: nat)
    requires IsLastWithData(cs, l) && cs != []
    ensures l < |cs|
  {
  }

  lemma BytesStart(cs: seq<Chunk>, first: nat, nvecs: nat, n: nat)
    requires 0 < n <= Room(cs, first, nvecs)
    ensures BytesLeft(cs, Flat(cs) + Spaces(cs, first, nvecs)[..n], cs, first, nvecs, n)
  {
  }

  lemma TakeOver(space: seq<Byte>, rest: seq<Byte>, n: nat)
    requires |space| <= n <= |space| + |rest|
    ensures (space + rest)[..n] == space + rest[..n - |space|]
  {
  }

  // The least of 4096, what there is to read if that is known, and what was asked for if there was a limit
  function HowMuch(readable: int, howmuch: int): (r: nat)
    ensures r <= 4096 && (readable > 0 ==> r <= readable) && (howmuch >= 0 ==> r <= howmuch)
    ensures r == 4096 || (readable > 0 && r == readable) || r == howmuch
  {
    var n := if readable <= 0 || readable > EVBUFFER_MAX_READ then EVBUFFER_MAX_READ else readable;
    if howmuch < 0 || howmuch > n then n else howmuch
  }

  /**
   evbuffer_read. `readable` is what FIONREAD answers, `pending` the bytes in the socket;
   readv fails, or delivers as many of them as it likes up to the space it is offered.
   */
  method Read(buf: Evbuffer, readable: int, howmuch: int, pending: seq<Byte>, delivers: nat, fails: bool)
    returns (r: int)
    requires buf.Valid()
    modifies buf`chains, buf`last, buf`lastWithDatap, buf`totalLen
    ensures buf.Valid()
    ensures r == if buf.freezeEnd || fails then -1 else Min(delivers, Min(|pending|, HowMuch(readable, howmuch)))
    ensures buf.Contents() == old(buf.Contents()) + if r > 0 then pending[..r] else []
    ensures r == -1 && !buf.freezeEnd ==>
              Grown(old(buf.chains), old(buf.lastWithDatap), buf.chains, HowMuch(readable, howmuch), NUM_READ_IOVEC)
    ensures old(DataFirst(buf.chains)) ==> DataFirst(buf.chains)
    ensures old(buf.Compact()) && (buf.freezeEnd || r == HowMuch(readable, howmuch)) ==> buf.Compact()
  {
    hide Flat, Data, AppendTo, Grown, NothingMoved, Raised, DataFirst, CompactList, OneExtra, Usable;
    if buf.freezeEnd {
      return -1;
    }
    var h := HowMuch(readable, howmuch);
    ExpandFast(buf, h, NUM_READ_IOVEC);
    var vecs := SetupVecs(buf.chains, buf.lastWithDatap, h, NUM_READ_IOVEC, true);
    if fails {
      return -1;
    }
    r := Min(delivers, Min(|pending|, Sum(vecs.value)));
    ghost var cs, l := buf.chains, buf.lastWithDatap;
    if r > 0 {
      Deliver(buf, vecs.value, pending[..r]);
      if DataFirst(cs) {
        RaisedFirst(cs, l, r, buf.chains, buf.lastWithDatap);
      }
      if r == h && old(buf.Compact()) {
        RaisedCompact(cs, l, r, buf.chains, buf.lastWithDatap);
      }
    } else if r == h && old(buf.Compact()) {
      NoneExtra(cs, l);
    }
  }

  // readv and the loop after it
  method Deliver(buf: Evbuffer, vecs: seq<nat>, data: seq<Byte>)
    requires buf.Valid() && buf.chains != [] && data != [] && |data| <= Sum(vecs)
    requires VecsFit(buf.chains, FirstWithSpace(buf.chains, buf.lastWithDatap), vecs)
    modifies buf`chains, buf`lastWithDatap, buf`totalLen
    ensures buf.Valid() && buf.Contents() == old(buf.Contents()) + data
    ensures Raised(old(buf.chains), old(FirstWithSpace(buf.chains, buf.lastWithDatap)), |data|, buf.chains,
                   buf.lastWithDatap)
  {
    hide Flat, Data, VecsFit, Spaces, Room, Raised;
    var first := FirstWithSpace(buf.chains, buf.lastWithDatap);
    var filled := Scatter(buf.chains, first, vecs, data);
    SameButSpaceFlat(buf.chains, filled);
    LinkSame(buf.chains, filled, buf.lastWithDatap);
    hide SameButSpace, IsLastWithData;
    buf.chains := filled;
    Commit(buf, |vecs|, |data|);
    RaisedSame(old(buf.chains), filled, first, |data|, buf.chains, buf.lastWithDatap);
    assert Spaces(filled, first, |vecs|)[..|data|] == data;
  }

  lemma RaisedSame(cs0: seq<Chunk>, cs1: seq<Chunk>, first: nat, n: nat, cs: seq<Chunk>, e: nat)
    requires SameButSpace(cs0, cs1) && Raised(cs1, first, n, cs, e)
    ensures Raised(cs0, first, n, cs, e)
  {
    hide Data, Room;
    SameButSpaceRoom(cs0, cs1, first, e - first);
    SameButSpaceRoom(cs0, cs1, first, e - first + 1);
  }

  // The first chunk takes the first bytes.
  lemma RaisedFirst(cs0: seq<Chunk>, l: nat, n: nat, cs: seq<Chunk>, e: nat)
    requires IsLastWithData(cs0, l) && Usable(cs0, l) && DataFirst(cs0) && Raised(cs0, FirstWithSpace(cs0, l), n, cs, e)
    ensures DataFirst(cs)
  {
    hide Room;
  }

  lemma NoneExtra(cs: seq<Chunk>, l: nat)
    ensures !OneExtra(cs, l, 0)
  {
  }

  // If everything that was asked for arrived, the chunk that was added has got some of it.
  lemma RaisedCompact(cs0: seq<Chunk>, l: nat, n: nat, cs: seq<Chunk>, e: nat)
    requires Usable(cs0, l) && Raised(cs0, FirstWithSpace(cs0, l), n, cs, e)
    requires CompactList(cs0) || OneExtra(cs0, l, n)
    ensures CompactList(cs)
  {
    var first, last := FirstWithSpace(cs0, l), |cs0| - 1;
    if !CompactList(cs0) {
      if e < last {
        RoomGrows(cs0, first, e - first + 1, last - first);
      }
      assert e == last;
      hide Room;
      forall k | 0 <= k < |cs| ensures cs[k].off > 0 {
        assert k < last ==> cs0[..last][k] == cs0[k];
      }
    }
  }

  lemma LinkSame(cs: seq<Chunk>, cs': seq<Chunk>, l: nat)
    requires SameButSpace(cs, cs') && cs != [] && IsLastWithData(cs, l)
    ensures |cs'| == |cs| && IsLastWithData(cs', l) && FirstWithSpace(cs', l) == FirstWithSpace(cs, l)
  {
    hide Data;
  }

  // ---- What reads that fail leave for evbuffer_add ----

  // A buffer with one full block of the smallest size
  method FullBlock() returns (buf: Evbuffer)
    ensures fresh(buf) && buf.Valid() && !buf.freezeEnd && !buf.freezeStart && buf.totalLen == 976
    ensures Aligned(buf.chains) && buf.lastWithDatap == 0
    ensures |buf.chains| == 1 && buf.chains[0].off == |buf.chains[0].mem| == 976 && buf.chains[0].misalign == 0
  {
    buf := new Evbuffer();
    var data := seq(976, _ => 7);
    var _ := buf.Add(data);
    FlatOne(buf.chains[0]);
    assert buf.chains == [buf.chains[0]];
    DataLen(buf.chains[0]);
  }

  lemma BlockSizes()
    ensures ChunkSize(10) == 976 && ChunkSize(3120) == 4048 && ChunkSize(4096) == 8144
  {
    Doubles(1024, 3168);
    Doubles(2048, 3168);
    Doubles(1024, 4144);
    Doubles(2048, 4144);
    Doubles(4096, 4144);
  }

  lemma Doubles(toAlloc: nat, need: nat)
    requires 0 < toAlloc < need
    ensures BlockSize(toAlloc, need) == BlockSize(2 * toAlloc, need)
            && (2 * toAlloc >= need ==> BlockSize(2 * toAlloc, need) == 2 * toAlloc)
  {
  }

  /** After a read that failed, evbuffer_add leaves last_with_datap wrong. */
  method AddCanBreakLink() returns (buf: Evbuffer)
    ensures fresh(buf) && buf.Consistent() && !buf.LinkRight()
  {
    hide Flat;
    buf := FullBlock();
    BlockSizes();
    var _ := Read(buf, 0, -1, [], 0, true);
    LinkStays(buf.chains, buf.lastWithDatap);
    var _ := buf.Add([1]);
  }

  lemma LinkStays(cs: seq<Chunk>, l: nat)
    requires IsLastWithData(cs, l) && cs != [] && cs[0].off > 0 && forall i :: 1 <= i < |cs| ==> cs[i].off == 0
    ensures l == 0
  {
  }

  /** After two reads that failed, the second for more than the first, an evbuffer_add that does not fit
      fires the assertion in evbuffer_chain_insert. */
  method AddCanFireAssertion() returns (buf: Evbuffer)
    ensures fresh(buf) && buf.Valid() && !buf.freezeEnd && !AddSafe(buf.chains, buf.lastWithDatap, 4049)
  {
    hide Flat;
    buf := FullBlock();
    BlockSizes();
    var _ := Read(buf, 0, 10, [], 0, true);
    LinkStays(buf.chains, buf.lastWithDatap);
    var _ := Read(buf, 0, -1, [], 0, true);
    LinkStays(buf.chains, buf.lastWithDatap);
  }

  // A read that failed has left an empty chunk, and evbuffer_add_buffer has put others behind it.
  method WithGap() returns (src: Evbuffer)
    ensures fresh(src) && src.Valid() && !src.freezeStart && src.totalLen == 2928
    ensures |src.chains| == 4 && src.chains[1].off == 0
    ensures src.chains[0].off == src.chains[2].off == src.chains[3].off == 976
  {
    hide Flat, DataFirst, CompactList;
    src := FullBlock();
    BlockSizes();
    var _ := Read(src, 0, -1, [], 0, true);
    var more := FullBlock();
    var rest := FullBlock();
    var _ := src.AddBuffer(more);
    var _ := src.AddBuffer(rest);
  }

  /** After a read that failed and evbuffer_add_buffer, evbuffer_remove_buffer moves an empty chunk between
      two with data and leaves last_with_datap wrong. */
  method RemoveCanBreakLink() returns (src: Evbuffer, dst: Evbuffer)
    ensures fresh(src) && fresh(dst) && dst.Consistent() && !dst.LinkRight()
  {
    hide Flat, Covered, Uncovered, TakeSafe, TakeKeepsLink, DataFirst, CompactList, SourceKeepsLink;
    src := WithGap();
    dst := new Evbuffer();
    GapMoved(src.chains);
    var _ := src.RemoveBuffer(dst, 1952);
  }

  lemma GapMoved(cs: seq<Chunk>)
    requires |cs| == 4 && cs[0].off == cs[2].off == cs[3].off == 976 && cs[1].off == 0
    ensures var moved, n := cs[..Covered(cs, 1952)], Uncovered(cs, 1952);
      TakeSafe([], 0, moved, n) && !TakeKeepsLink([], 0, moved, n)
  {
    assert cs[1..][1..] == cs[2..] && cs[2..][1..] == cs[3..];
    assert Covered(cs[3..], 0) == 0 && Covered(cs[2..], 976) == 1 && Covered(cs[1..], 976) == 2;
    assert Uncovered(cs[3..], 0) == 0 && Uncovered(cs[2..], 976) == 0 && Uncovered(cs[1..], 976) == 0;
    var moved := cs[..3];
    assert moved[0].off > 0 && moved[1..][0].off == 0 && moved[1..][1].off > 0;
  }
}
