/**
 The chunks an evbuffer is made of, and the byte string a list of chunks stands for.

 A chunk owns a block of memory; `off` bytes of it, starting at `misalign`, are data.
 The space before the data and the space after it can both be used later.
 */
module Chunks {

  type Byte = b: int | 0 <= b < 256

  // The allocation constants of a platform with 8-byte pointers.
  const MIN_BUFFER_SIZE := 1024
  const CHAIN_HEADER_SIZE := 48
  const MAX_TO_REALIGN := 2048

  datatype RawChunk = Chunk(mem: seq<Byte>, misalign: nat, off: nat) {
    predicate InBounds() {
      0 < |mem| && misalign + off <= |mem|
    }
  }

  type Chunk = c: RawChunk | c.InBounds() witness Chunk([0], 0, 0)

  function Data(c: Chunk): seq<Byte> {
    c.mem[c.misalign..c.misalign + c.off]
  }

  // CHAIN_SPACE_LEN
  function SpaceLen(c: Chunk): nat {
    |c.mem| - (c.misalign + c.off)
  }

  // memcpy of `bytes` to offset `at`
  function Overwrite(mem: seq<Byte>, at: nat, bytes: seq<Byte>): (r: seq<Byte>)
    requires at + |bytes| <= |mem|
    ensures |r| == |mem|
  {
    mem[..at] + bytes + mem[at + |bytes|..]
  }

  function AppendTo(c: Chunk, bytes: seq<Byte>): (r: Chunk)
    requires |bytes| <= SpaceLen(c)
    ensures Data(r) == Data(c) + bytes
    ensures |r.mem| == |c.mem| && r.misalign == c.misalign && r.off == c.off + |bytes|
  {
    Chunk(Overwrite(c.mem, c.misalign + c.off, bytes), c.misalign, c.off + |bytes|)
  }

  function PrependTo(c: Chunk, bytes: seq<Byte>): (r: Chunk)
    requires |bytes| <= c.misalign
    ensures Data(r) == bytes + Data(c)
    ensures |r.mem| == |c.mem| && r.off == c.off + |bytes|
  {
    Chunk(Overwrite(c.mem, c.misalign - |bytes|, bytes), c.misalign - |bytes|, c.off + |bytes|)
  }

  // An empty chunk, turned from empty at the end into empty at the beginning
  function AllSpaceInFront(c: Chunk): (r: Chunk)
    requires c.off == 0
    ensures r == c.(misalign := |c.mem|) && Data(r) == Data(c) == []
  {
    c.(misalign := |c.mem|)
  }

  // evbuffer_chain_align
  function Align(c: Chunk): (r: Chunk)
    ensures Data(r) == Data(c) && r.misalign == 0 && r.off == c.off && |r.mem| == |c.mem|
  {
    Chunk(Data(c) + c.mem[c.off..], 0, c.off)
  }

  // evbuffer_chain_should_realign
  predicate ShouldRealign(c: Chunk, n: nat) {
    |c.mem| - c.off >= n && c.off < |c.mem| / 2 && c.off <= MAX_TO_REALIGN
  }

  function DropFront(c: Chunk, n: nat): (r: Chunk)
    requires n <= c.off
    ensures Data(r) == Data(c)[n..] && r.off == c.off - n && |r.mem| == |c.mem|
  {
    c.(misalign := c.misalign + n, off := c.off - n)
  }

  // The first size of the doubling sequence that is large enough
  function BlockSize(toAlloc: nat, need: nat): (r: nat)
    requires toAlloc > 0
    ensures r >= toAlloc && r >= need
    decreases need - toAlloc
  {
    if toAlloc >= need then toAlloc else BlockSize(2 * toAlloc, need)
  }

  // What is left of the block behind the header
  function ChunkSize(size: nat): (r: nat)
    ensures r >= size && r >= MIN_BUFFER_SIZE - CHAIN_HEADER_SIZE
  {
    BlockSize(MIN_BUFFER_SIZE, size + CHAIN_HEADER_SIZE) - CHAIN_HEADER_SIZE
  }

  /** evbuffer_chain_new: the smallest block of the doubling sequence that holds the header and `size`
      bytes, less than twice what is needed. */
  method NewChunk(size: nat) returns (c: Chunk)
    ensures c.misalign == 0 && c.off == 0 && Data(c) == [] && |c.mem| == ChunkSize(size)
    ensures |c.mem| + CHAIN_HEADER_SIZE == MIN_BUFFER_SIZE
            || |c.mem| + CHAIN_HEADER_SIZE < 2 * (size + CHAIN_HEADER_SIZE)
  {
    var toAlloc := MIN_BUFFER_SIZE;
    while toAlloc < size + CHAIN_HEADER_SIZE
      invariant toAlloc == MIN_BUFFER_SIZE || MIN_BUFFER_SIZE < toAlloc < 2 * (size + CHAIN_HEADER_SIZE)
      invariant BlockSize(toAlloc, size + CHAIN_HEADER_SIZE) == BlockSize(MIN_BUFFER_SIZE, size + CHAIN_HEADER_SIZE)
      decreases size + CHAIN_HEADER_SIZE - toAlloc
    {
      toAlloc := 2 * toAlloc;
    }
    c := Chunk(seq(toAlloc - CHAIN_HEADER_SIZE, _ => 0), 0, 0);
  }

  // The memory behind the data
  function SpaceBytes(c: Chunk): (r: seq<Byte>)
    ensures |r| == SpaceLen(c)
  {
    c.mem[c.misalign + c.off..]
  }

  // Bytes put into the space behind the data, without taking them over
  function Scribble(c: Chunk, bytes: seq<Byte>): (r: Chunk)
    requires |bytes| <= SpaceLen(c)
    ensures Data(r) == Data(c) && r.off == c.off && r.misalign == c.misalign && |r.mem| == |c.mem|
    ensures bytes <= SpaceBytes(r)
  {
    c.(mem := Overwrite(c.mem, c.misalign + c.off, bytes))
  }

  // The first n bytes of the space become data.
  function Raise(c: Chunk, n: nat): (r: Chunk)
    requires n <= SpaceLen(c)
    ensures Data(r) == Data(c) + SpaceBytes(c)[..n] && r.off == c.off + n && SpaceLen(r) == SpaceLen(c) - n
  {
    c.(off := c.off + n)
  }

  // The bytes at a place
  ghost predicate Holds(p: seq<Byte>, at: nat, bytes: seq<Byte>) {
    at + |bytes| <= |p| && p[at..at + |bytes|] == bytes
  }

  lemma HoldsParts(p: seq<Byte>, at: nat, a: seq<Byte>, b: seq<Byte>)
    requires Holds(p, at, a + b)
    ensures Holds(p, at, a) && Holds(p, at + |a|, b)
  {
    var w := p[at..at + |a + b|];
    assert p[at..at + |a|] == w[..|a|];
    assert p[at + |a|..at + |a| + |b|] == w[|a|..];
  }

  lemma AddAssoc(a: seq<Byte>, b: seq<Byte>, c: seq<Byte>)
    ensures a + (b + c) == a + b + c
  {
  }

  // ---- The byte string of a chunk list ----

  ghost function Flat(cs: seq<Chunk>): seq<Byte> {
    if cs == [] then [] else Data(cs[0]) + Flat(cs[1..])
  }

  lemma {:induction false} FlatConcat(a: seq<Chunk>, b: seq<Chunk>)
    ensures Flat(a + b) == Flat(a) + Flat(b)
  {
    if a == [] {
      assert a + b == b;
    } else {
      var c := a + b;
      assert c[1..] == a[1..] + b && c[0] == a[0];
      FlatConcat(a[1..], b);
      AddAssoc(Data(a[0]), Flat(a[1..]), Flat(b));
    }
  }

  lemma FlatOne(c: Chunk)
    ensures Flat([c]) == Data(c)
  {
    assert [c][1..] == [];
  }

  lemma FlatSplit(cs: seq<Chunk>, i: nat)
    requires i <= |cs|
    ensures Flat(cs) == Flat(cs[..i]) + Flat(cs[i..])
  {
    hide Flat;
    var a, b := cs[..i], cs[i..];
    FlatConcat(a, b);
    assert a + b == cs;
  }

  lemma FlatAt(cs: seq<Chunk>, i: nat)
    requires i < |cs|
    ensures Flat(cs) == Flat(cs[..i]) + Data(cs[i]) + Flat(cs[i + 1..])
  {
    var a, b := cs[..i], cs[i..];
    assert b[0] == cs[i] && b[1..] == cs[i + 1..];
    assert Flat(b) == Data(cs[i]) + Flat(cs[i + 1..]);
    hide Flat, Data;
    FlatSplit(cs, i);
    AddAssoc(Flat(a), Data(cs[i]), Flat(cs[i + 1..]));
  }

  // Replacing one chunk
  lemma FlatUpdate(cs: seq<Chunk>, i: nat, c: Chunk)
    requires i < |cs|
    ensures Flat(cs[i := c]) == Flat(cs[..i]) + Data(c) + Flat(cs[i + 1..])
  {
    FlatAt(cs[i := c], i);
    assert cs[i := c][..i] == cs[..i] && cs[i := c][i + 1..] == cs[i + 1..];
  }

  predicate AllEmpty(cs: seq<Chunk>) {
    forall i :: 0 <= i < |cs| ==> cs[i].off == 0
  }

  lemma {:induction false} FlatEmpty(cs: seq<Chunk>)
    ensures AllEmpty(cs) <==> Flat(cs) == []
  {
    if cs != [] {
      FlatEmpty(cs[1..]);
      assert cs == [cs[0]] + cs[1..];
    }
  }

  // Cutting the list at a place after which everything is empty, and putting a chunk there
  lemma FlatReplaceTail(cs: seq<Chunk>, i: nat, c: Chunk)
    requires i <= |cs| && forall k :: i <= k < |cs| ==> cs[k].off == 0
    ensures Flat(cs[..i] + [c]) == Flat(cs) + Data(c)
  {
    var a, b := cs[..i], cs[i..];
    FlatSplit(cs, i);
    assert Flat(b) == [] by { FlatEmpty(b); }
    assert Flat(a) == Flat(cs);
    FlatConcat(a, [c]);
    FlatOne(c);
  }

  /** `i` is the chunk last_with_datap should lead to: the last chunk with data, or the first
      place when there is none. */
  predicate IsLastWithData(cs: seq<Chunk>, i: nat) {
    if cs == [] then i == 0
    else i < |cs| && (forall k :: i < k < |cs| ==> cs[k].off == 0) && (cs[i].off == 0 ==> i == 0)
  }

  // Data put into the last chunk: the link stays right iff it led there, or no data came.
  lemma LinkAfterFill(cs: seq<Chunk>, l: nat, c: Chunk)
    requires cs != [] && IsLastWithData(cs, l) && c.off >= cs[|cs| - 1].off
    ensures IsLastWithData(cs[|cs| - 1 := c], l) <==> l == |cs| - 1 || c.off == 0
  {
    assert cs[|cs| - 1 := c][|cs| - 1] == c;
  }

  /** The effect of evbuffer_chain_insert on the list and on last_with_datap: the chunk goes
      where the first empty chunk at or after the link was, or to the end. */
  ghost predicate Inserted(cs: seq<Chunk>, l: nat, c: Chunk, cs': seq<Chunk>, l': nat) {
    && 0 < |cs'| <= |cs| + 1
    && var cut := |cs'| - 1;
       && cs' == cs[..cut] + [c]
       && (forall i :: l <= i < cut ==> cs[i].off > 0)
       && (cut < |cs| ==> l <= cut && forall i :: cut <= i < |cs| ==> cs[i].off == 0)
       && l' == if cut == |cs| && c.off != 0 then cut else l
  }

  // A chunk with data that replaces empty ones is not found by the link, unless the link led
  // to the first of them.
  lemma LinkAfterInsert(cs: seq<Chunk>, l: nat, c: Chunk, cs': seq<Chunk>, l': nat)
    requires Inserted(cs, l, c, cs', l') && c.off > 0
    requires if cs == [] then l == 0 else l < |cs|
    requires cs != [] && cs[l].off == 0 ==> l == 0
    ensures IsLastWithData(cs', l') <==> |cs'| > |cs| || cs[l].off == 0
  {
    var cut := |cs'| - 1;
    assert cs'[cut] == c;
  }

  // One step along the list
  lemma FlatStep(cs: seq<Chunk>, i: nat)
    requires i < |cs|
    ensures Flat(cs[i..]) == Data(cs[i]) + Flat(cs[i + 1..])
  {
    assert cs[i..][1..] == cs[i + 1..];
  }

  lemma FlatPush(c: Chunk, cs: seq<Chunk>)
    ensures Flat([c] + cs) == Data(c) + Flat(cs)
  {
    assert ([c] + cs)[1..] == cs;
  }

  // No empty chunk, except one that is alone: the layouts reached without expanding,
  // reserving or reading.
  ghost predicate CompactList(cs: seq<Chunk>) {
    |cs| <= 1 || NoneEmpty(cs)
  }

  // There is data in the first chunk if there is any.
  ghost predicate DataFirst(cs: seq<Chunk>) {
    cs != [] && cs[0].off == 0 ==> AllEmpty(cs)
  }

  ghost predicate NoneEmpty(cs: seq<Chunk>) {
    forall i :: 0 <= i < |cs| ==> cs[i].off > 0
  }

  // A compact list with data has no empty chunk, and the link leads to its last chunk.
  lemma CompactWithData(cs: seq<Chunk>, l: nat)
    requires CompactList(cs) && IsLastWithData(cs, l)
    ensures Flat(cs) != [] ==> NoneEmpty(cs)
    ensures cs != [] ==> l == |cs| - 1
  {
    FlatEmpty(cs);
    hide Flat;
    assert |cs| > 1 ==> cs[|cs| - 1].off > 0;
  }

  lemma CompactInsert(cs: seq<Chunk>, l: nat, c: Chunk, cs': seq<Chunk>, l': nat)
    requires CompactList(cs) && Inserted(cs, l, c, cs', l') && c.off > 0 && (cs != [] ==> l < |cs|)
    ensures CompactList(cs')
  {
  }

  // Two lists one after the other: the link is the second list's, moved, when that has data.
  lemma LinkConcat(a: seq<Chunk>, b: seq<Chunk>, l: nat)
    requires IsLastWithData(b, l) && Flat(b) != []
    ensures IsLastWithData(a + b, |a| + l)
  {
    FlatEmpty(b);
    assert forall k :: |a| <= k < |a + b| ==> (a + b)[k] == b[k - |a|];
  }

  lemma CompactConcat(a: seq<Chunk>, b: seq<Chunk>, l: nat, m: nat)
    requires CompactList(a) && CompactList(b) && IsLastWithData(a, l) && IsLastWithData(b, m)
    requires Flat(a) != [] && Flat(b) != []
    ensures CompactList(a + b)
  {
    CompactWithData(a, l);
    CompactWithData(b, m);
  }

  // Taking n bytes that end inside chunk i
  lemma FlatTake(cs: seq<Chunk>, i: nat, n: nat)
    requires i < |cs| && n <= cs[i].off
    ensures |Flat(cs[..i])| + n <= |Flat(cs)|
    ensures Flat(cs[..i]) + Data(cs[i])[..n] == Flat(cs)[..|Flat(cs[..i])| + n]
  {
    hide Data;
    DataLen(cs[i]);
    FlatAt(cs, i);
  }

  // The chunks before i, and part of chunk i, gathered into one: cs' is the new list.
  lemma LinkAfterGather(cs: seq<Chunk>, l: nat, i: nat, cs': seq<Chunk>)
    requires cs != [] && IsLastWithData(cs, l) && i <= |cs| && |cs'| == |cs| - i + 1 && cs'[0].off > 0
    requires i < |cs| ==> cs[i].off > 0 && cs'[1].off > 0 && cs'[2..] == cs[i + 1..]
    ensures IsLastWithData(cs', if l < i then 0 else l - i + 1)
    ensures NoneEmpty(cs) ==> NoneEmpty(cs')
  {
    forall k | 2 <= k < |cs'|
      ensures cs'[k] == cs[i + k - 1]
    {
      assert cs'[k] == cs'[2..][k - 2];
    }
  }

  // Dropping n bytes that end inside chunk i
  lemma FlatDrop(cs: seq<Chunk>, i: nat, n: nat)
    requires i < |cs| && n <= cs[i].off
    ensures |Flat(cs[..i])| + n <= |Flat(cs)|
    ensures Flat([DropFront(cs[i], n)] + cs[i + 1..]) == Flat(cs)[|Flat(cs[..i])| + n..]
  {
    hide Data, DropFront;
    var d, before := DropFront(cs[i], n), Flat(cs[..i]);
    FlatAt(cs, i);
    FlatPush(d, cs[i + 1..]);
    assert |Data(cs[i])| == cs[i].off by { DataLen(cs[i]); }
  }

  lemma DataLen(c: Chunk)
    ensures |Data(c)| == c.off
  {
  }

  // With fewer bytes before chunk i than there are in all, the link is at i or later.
  lemma LinkNotBefore(cs: seq<Chunk>, l: nat, i: nat)
    requires IsLastWithData(cs, l) && i <= |cs| && |Flat(cs[..i])| < |Flat(cs)|
    ensures i <= l < |cs|
  {
    FlatSplit(cs, i);
    FlatEmpty(cs[i..]);
    assert !AllEmpty(cs[i..]);
  }

  lemma FlatNext(cs: seq<Chunk>, i: nat)
    requires i < |cs|
    ensures Flat(cs[..i + 1]) == Flat(cs[..i]) + Data(cs[i])
  {
    FlatConcat(cs[..i], [cs[i]]);
    FlatOne(cs[i]);
    assert cs[..i] + [cs[i]] == cs[..i + 1];
  }

  // ---- When evbuffer_add keeps last_with_datap right ----

  // Whether the chunk takes n more bytes as it is, or after realigning it
  predicate Fits(c: Chunk, n: nat) {
    SpaceLen(c) >= n || ShouldRealign(c, n)
  }

  // What evbuffer_chain_insert asserts: either there is no chunk at all, or every chunk from the
  // first empty one at or after the link on is empty.
  predicate InsertOk(cs: seq<Chunk>, l: nat) {
    if l == |cs| then cs == []
    else forall i, j :: l <= i < j < |cs| && cs[i].off == 0 ==> cs[j].off == 0
  }

  // When that holds as n bytes are added: filling up the last chunk leaves no empty chunk between
  // the link and it.
  predicate AddSafe(cs: seq<Chunk>, l: nat, n: nat)
    requires IsLastWithData(cs, l)
  {
    cs != [] ==>
      var last := |cs| - 1;
      Fits(cs[last], n) || SpaceLen(cs[last]) == 0 || last == l || (last == l + 1 && cs[l].off > 0)
  }

  /** An add that does not fit meets the assertion of evbuffer_chain_insert with cs1, where the last
      chunk has been filled up; AddSafe is exactly that it does not fire. */
  lemma AddSafeExact(cs: seq<Chunk>, l: nat, n: nat, cs1: seq<Chunk>)
    requires cs != [] && IsLastWithData(cs, l) && !Fits(cs[|cs| - 1], n)
    requires |cs1| == |cs| && cs1[..|cs| - 1] == cs[..|cs| - 1]
    requires cs1[|cs| - 1].off == cs[|cs| - 1].off + SpaceLen(cs[|cs| - 1])
    ensures AddSafe(cs, l, n) <==> InsertOk(cs1, l)
  {
    var last := |cs| - 1;
    assert forall i :: 0 <= i < last ==> cs1[i] == cs1[..last][i] == cs[i];
    if !AddSafe(cs, l, n) {
      var k := if cs[l].off > 0 then l + 1 else l;
      assert cs1[k].off == 0 && cs1[last].off > 0;
    }
  }

  /** evbuffer_add writes to the last chunk and does not move the link, so chunks left empty
      after the one with data make it wrong, unless a new chunk has to be appended, or to
      replace a list without data. */
  predicate AddKeepsLink(cs: seq<Chunk>, l: nat, n: nat)
    requires IsLastWithData(cs, l)
  {
    cs != [] && n > 0 ==>
      var last := |cs| - 1;
      last == l || (!Fits(cs[last], n) && (SpaceLen(cs[last]) == 0 <==> cs[l].off == 0))
  }

  // The last chunk of cs is topped up, giving cs1, and then c is inserted, giving cs2.
  lemma LinkAfterOverflow(cs: seq<Chunk>, l: nat, n: nat, cs1: seq<Chunk>, c: Chunk, cs2: seq<Chunk>, l2: nat)
    requires cs != [] && IsLastWithData(cs, l) && !Fits(cs[|cs| - 1], n) && AddSafe(cs, l, n)
    requires |cs1| == |cs| && cs1[..|cs| - 1] == cs[..|cs| - 1]
    requires cs1[|cs| - 1].off == cs[|cs| - 1].off + SpaceLen(cs[|cs| - 1])
    requires Inserted(cs1, l, c, cs2, l2) && c.off > 0
    ensures IsLastWithData(cs2, l2) <==> AddKeepsLink(cs, l, n)
  {
    var last := |cs| - 1;
    assert forall i :: 0 <= i < last ==> cs1[i] == cs1[..last][i] == cs[i];
    if l < last {
      assert cs1[l] == cs[l];
    }
    LinkAfterInsert(cs1, l, c, cs2, l2);
  }

  lemma ShapeAfterOverflow(cs: seq<Chunk>, l: nat, cs1: seq<Chunk>, c: Chunk, cs2: seq<Chunk>, l2: nat)
    requires cs != [] && IsLastWithData(cs, l) && |cs1| == |cs| && cs1[..|cs| - 1] == cs[..|cs| - 1]
    requires cs1[|cs| - 1].off >= cs[|cs| - 1].off && Inserted(cs1, l, c, cs2, l2) && c.off > 0
    ensures CompactList(cs) ==> CompactList(cs2)
    ensures DataFirst(cs) && IsLastWithData(cs2, l2) ==> DataFirst(cs2)
  {
    assert forall i :: 0 <= i < |cs| - 1 ==> cs1[i] == cs1[..|cs| - 1][i] == cs[i];
    if CompactList(cs) {
      CompactInsert(cs1, l, c, cs2, l2);
    }
  }

  // ---- Moving chunks to the end of another list ----

  // How many chunks lie wholly in the first n bytes, and how many of the bytes are not in them
  function Covered(cs: seq<Chunk>, n: nat): (i: nat)
    ensures i <= |cs|
  {
    if cs == [] || cs[0].off > n then 0 else 1 + Covered(cs[1..], n - cs[0].off)
  }

  function Uncovered(cs: seq<Chunk>, n: nat): (left: nat)
    ensures left <= n
  {
    if cs == [] || cs[0].off > n then n else Uncovered(cs[1..], n - cs[0].off)
  }

  lemma CoveredNext(cs: seq<Chunk>, i: nat, n: nat)
    requires i < |cs| && cs[i].off <= n
    ensures Covered(cs[i..], n) == 1 + Covered(cs[i + 1..], n - cs[i].off)
    ensures Uncovered(cs[i..], n) == Uncovered(cs[i + 1..], n - cs[i].off)
  {
    assert cs[i..][0] == cs[i] && cs[i..][1..] == cs[i + 1..];
  }

  lemma CoveredNone(cs: seq<Chunk>, i: nat, n: nat)
    requires i < |cs| && cs[i].off > n
    ensures Covered(cs[i..], n) == 0 && Uncovered(cs[i..], n) == n
  {
  }

  // The chunk last_with_datap should lead to
  function LastData(cs: seq<Chunk>): (l: nat)
    ensures IsLastWithData(cs, l)
  {
    if |cs| <= 1 then 0 else if cs[|cs| - 1].off > 0 then |cs| - 1 else LastData(cs[..|cs| - 1])
  }

  predicate NoGap(cs: seq<Chunk>) {
    forall i, j :: 0 <= i < j < |cs| && cs[i].off == 0 ==> cs[j].off == 0
  }

  // advance_last_with_data goes on while the next chunk has data, so it gets to the last chunk with
  // data if there is no empty one on the way.
  predicate GapFree(cs: seq<Chunk>, moved: seq<Chunk>)
    requires moved != []
  {
    NoGap(if AllEmpty(cs) then moved[1..] else moved)
  }

  // What is left of a list without its empty end, up to ch, is followed by `moved`.
  ghost predicate Joined(cs: seq<Chunk>, l: nat, ch: nat, moved: seq<Chunk>, cs': seq<Chunk>) {
    && l <= ch <= |cs| && cs' == cs[..ch] + moved
    && (forall i :: l <= i < ch ==> cs[i].off != 0) && (ch < |cs| ==> cs[ch].off == 0)
  }

  ghost predicate Advanced(cs: seq<Chunk>, l: nat, l': nat) {
    && l <= l' < |cs| && (forall i :: l < i <= l' ==> cs[i].off > 0)
    && (l' + 1 < |cs| ==> cs[l' + 1].off == 0)
  }

  ghost predicate DataBehind(cs: seq<Chunk>, l: nat) {
    exists j :: l < j < |cs| && cs[j].off > 0
  }

  lemma StillBehind(cs: seq<Chunk>, l: nat, cs': seq<Chunk>)
    requires |cs'| == |cs| && forall i :: 0 <= i < |cs| ==> cs'[i].off >= cs[i].off
    ensures DataBehind(cs, l) ==> DataBehind(cs', l)
  {
    if DataBehind(cs, l) {
      var j :| l < j < |cs| && cs[j].off > 0;
      assert cs'[j].off > 0;
    }
  }

  // Bytes behind the others keep the data at the front unless the link is lost over them.
  lemma StillFirst(cs: seq<Chunk>, l: nat, cs': seq<Chunk>)
    requires |cs'| == |cs| && forall i :: 0 <= i < |cs| ==> cs'[i].off >= cs[i].off
    requires forall i :: 0 <= i < |cs| - 1 ==> cs'[i].off == cs[i].off
    ensures DataFirst(cs) && IsLastWithData(cs, l) && IsLastWithData(cs', l) ==> DataFirst(cs')
  {
  }

  lemma LastDataUnique(cs: seq<Chunk>, l: nat)
    requires IsLastWithData(cs, l)
    ensures LastData(cs) == l
  {
  }

  // Without its empty end a list stops behind its last chunk with data.
  lemma JoinAt(cs: seq<Chunk>, l: nat, ch: nat, moved: seq<Chunk>, cs': seq<Chunk>)
    requires IsLastWithData(cs, l) && Joined(cs, l, ch, moved, cs')
    ensures ch == if AllEmpty(cs) then 0 else l + 1
    ensures forall k :: ch <= k < |cs'| ==> cs'[k] == moved[k - ch]
  {
    if !AllEmpty(cs) {
      var k :| 0 <= k < |cs| && cs[k].off > 0;
      assert k <= l && cs[l].off > 0;
      assert l + 1 < |cs| ==> cs[l + 1].off == 0;
    }
  }

  lemma EmptyEnd(cs: seq<Chunk>, l: nat, ch: nat)
    requires IsLastWithData(cs, l) && ch <= |cs| && (AllEmpty(cs) || l < ch)
    ensures AllEmpty(cs[ch..])
  {
    forall i | 0 <= i < |cs[ch..]| ensures cs[ch..][i].off == 0 {
      assert cs[ch..][i] == cs[ch + i];
    }
  }

  lemma JoinedFlat(cs: seq<Chunk>, l: nat, ch: nat, moved: seq<Chunk>, cs': seq<Chunk>)
    requires IsLastWithData(cs, l) && Joined(cs, l, ch, moved, cs') && moved != []
    ensures Flat(cs') == Flat(cs) + Flat(moved) && l < |cs'|
  {
    hide Flat, IsLastWithData, AllEmpty;
    JoinAt(cs, l, ch, moved, cs');
    EmptyEnd(cs, l, ch);
    FlatConcat(cs[..ch], moved);
    FlatSplit(cs, ch);
    FlatEmpty(cs[ch..]);
  }

  lemma JoinedFirst(cs: seq<Chunk>, l: nat, ch: nat, moved: seq<Chunk>, cs': seq<Chunk>)
    requires IsLastWithData(cs, l) && Joined(cs, l, ch, moved, cs') && moved != []
    ensures DataFirst(cs) && moved[0].off > 0 ==> DataFirst(cs')
  {
    JoinAt(cs, l, ch, moved, cs');
  }

  lemma JoinedCompact(cs: seq<Chunk>, l: nat, ch: nat, moved: seq<Chunk>, cs': seq<Chunk>)
    requires IsLastWithData(cs, l) && Joined(cs, l, ch, moved, cs') && CompactList(cs) && NoneEmpty(moved)
    ensures CompactList(cs')
  {
    assert forall i :: 0 <= i < ch ==> cs[i].off > 0;
  }

  lemma GapAt(cs: seq<Chunk>, moved: seq<Chunk>, k: nat, m: nat)
    requires k < m < |moved| && moved[k].off == 0 && moved[m].off > 0 && (AllEmpty(cs) ==> k > 0)
    ensures !GapFree(cs, moved)
  {
    hide AllEmpty;
    if AllEmpty(cs) {
      var t := moved[1..];
      assert t[k - 1] == moved[k] && t[m - 1] == moved[m];
    }
  }

  // The link has stopped before the last data, so there is an empty chunk on the way.
  lemma StoppedByGap(cs: seq<Chunk>, ch: nat, moved: seq<Chunk>, cs': seq<Chunk>, l': nat, m: nat)
    requires m < |moved| && moved[m].off > 0 && |cs'| == ch + |moved|
    requires forall k :: ch <= k < |cs'| ==> cs'[k] == moved[k - ch]
    requires ch <= (if AllEmpty(cs) then l' else l' + 1) && l' < ch + m && cs'[l' + 1].off == 0
    ensures !GapFree(cs, moved) && DataBehind(cs', l')
  {
    hide AllEmpty, GapFree;
    assert cs'[ch + m] == moved[m] && cs'[l' + 1] == moved[l' + 1 - ch];
    GapAt(cs, moved, l' + 1 - ch, m);
  }

  /** The link is right after chunks have been moved exactly if there is no gap. */
  lemma LinkAfterMove(cs: seq<Chunk>, l: nat, ch: nat, moved: seq<Chunk>, cs': seq<Chunk>, l': nat)
    requires IsLastWithData(cs, l) && moved != [] && !AllEmpty(moved)
    requires Joined(cs, l, ch, moved, cs') && Advanced(cs', l, l')
    ensures if GapFree(cs, moved) then l' == ch + LastData(moved) && IsLastWithData(cs', l') else DataBehind(cs', l')
  {
    var m := LastData(moved);
    assert moved[m].off > 0;
    JoinAt(cs, l, ch, moved, cs');
    hide AllEmpty, GapFree, LastData;
    if l' < ch + m {
      StoppedByGap(cs, ch, moved, cs', l', m);
    } else {
      assert cs'[l'] == moved[l' - ch];
      assert l' == ch + m;
      forall k | (if AllEmpty(cs) then 1 else 0) <= k < m ensures moved[k].off > 0 {
        assert cs'[ch + k].off > 0;
      }
      NoGapBut(cs, moved, m);
    }
  }

  lemma NoGapBut(cs: seq<Chunk>, moved: seq<Chunk>, m: nat)
    requires moved != [] && IsLastWithData(moved, m) && moved[m].off > 0
    requires forall k :: (if AllEmpty(cs) then 1 else 0) <= k < m ==> moved[k].off > 0
    ensures GapFree(cs, moved)
  {
    var t := if AllEmpty(cs) then moved[1..] else moved;
    var d := |moved| - |t|;
    hide AllEmpty;
    forall i, j | 0 <= i < j < |t| && t[i].off == 0 ensures t[j].off == 0 {
      assert t[i] == moved[i + d] && t[j] == moved[j + d];
    }
  }

  // When evbuffer_add can follow, after chunks were moved, without firing its assertion
  predicate TakeSafe(cs: seq<Chunk>, l: nat, moved: seq<Chunk>, n: nat)
    requires IsLastWithData(cs, l)
  {
    if AllEmpty(moved) then AddSafe(cs, l, n)
    else if GapFree(cs, moved) then AddSafe(moved, LastData(moved), n)
    else Fits(moved[|moved| - 1], n)
  }

  // When the link is right after that
  predicate TakeKeepsLink(cs: seq<Chunk>, l: nat, moved: seq<Chunk>, n: nat)
    requires IsLastWithData(cs, l)
  {
    if AllEmpty(moved) then AddKeepsLink(cs, l, n) else GapFree(cs, moved) && AddKeepsLink(moved, LastData(moved), n)
  }

  lemma AddBehind(pre: seq<Chunk>, moved: seq<Chunk>, n: nat)
    requires !AllEmpty(moved)
    ensures var l := LastData(moved);
      && IsLastWithData(pre + moved, |pre| + l)
      && (AddSafe(pre + moved, |pre| + l, n) <==> AddSafe(moved, l, n))
      && (AddKeepsLink(pre + moved, |pre| + l, n) <==> AddKeepsLink(moved, l, n))
  {
    var cs, l := pre + moved, LastData(moved);
    assert moved[l].off > 0;
    assert forall k :: |pre| <= k < |cs| ==> cs[k] == moved[k - |pre|];
  }

  /** With a gap, an add that does not fit fires the assertion of evbuffer_chain_insert. */
  lemma GapFires(cs: seq<Chunk>, l: nat, ch: nat, moved: seq<Chunk>, cs': seq<Chunk>, l': nat)
    requires IsLastWithData(cs, l) && moved != [] && !AllEmpty(moved) && !GapFree(cs, moved)
    requires Joined(cs, l, ch, moved, cs') && Advanced(cs', l, l')
    ensures !InsertOk(cs', l')
  {
    LinkAfterMove(cs, l, ch, moved, cs', l');
    var j :| l' < j < |cs'| && cs'[j].off > 0;
    assert cs'[l' + 1].off == 0;
  }

  // evbuffer_remove_buffer resets the link of its source to the first chunk as if that had moved.
  predicate SourceKeepsLink(cs: seq<Chunk>, l: nat, len: nat) {
    var i := Covered(cs, len);
    AllEmpty(cs[..i]) ==> i == 0 || i != l
  }

  // With data in the first chunk the link of the source stays right.
  lemma DataFirstKeepsLink(cs: seq<Chunk>, l: nat, len: nat)
    requires DataFirst(cs) && len < |Flat(cs)|
    ensures SourceKeepsLink(cs, l, len)
    ensures AllEmpty(cs[..Covered(cs, len)]) ==> Covered(cs, len) == 0
  {
    FlatEmpty(cs);
    assert cs[0].off > 0;
    assert Covered(cs, len) > 0 ==> cs[..Covered(cs, len)][0] == cs[0];
  }

  // In a compact list with data every chunk has some, so nothing can go wrong.
  lemma CompactTake(cs: seq<Chunk>, l: nat, src: seq<Chunk>, m: nat, len: nat, n: nat)
    requires CompactList(cs) && IsLastWithData(cs, l) && NoneEmpty(src)
    ensures var moved := src[..Covered(src, len)];
      TakeSafe(cs, l, moved, n) && TakeKeepsLink(cs, l, moved, n) && SourceKeepsLink(src, m, len)
  {
    CompactWithData(cs, l);
    var moved := src[..Covered(src, len)];
    assert moved != [] ==> moved[0].off > 0 && moved[|moved| - 1].off > 0;
    if moved != [] {
      LastDataUnique(moved, |moved| - 1);
    }
  }
}
