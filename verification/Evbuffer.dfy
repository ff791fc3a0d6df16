/**
 The evbuffer: a list of chunks, a running total and two cached links into the list,
 which together have to behave as one byte string.

 The pointer-to-pointer last_with_datap is an index: 0 is the address of `first`, and i + 1 is
 the address of the `next` field of chunk i, so the index is the position of the chunk the
 pointer leads to, and |chains| stands for a pointer that leads to NULL.
 */
module Evbuffers {
  import opened Chunks
  import opened Wrappers

  const MAX_AUTO_SIZE := 4096

  class Evbuffer {
    var chains: seq<Chunk>
    var last: int             // index of the chunk buf->last points to; -1 for NULL
    var lastWithDatap: nat
    var totalLen: nat
    var freezeStart: bool
    var freezeEnd: bool

    ghost function Contents(): seq<Byte>
      reads this
    {
      Flat(chains)
    }

    // Everything but the position of last_with_datap
    ghost predicate Consistent()
      reads this
    {
      last == |chains| - 1 && totalLen == |Contents()| && lastWithDatap <= |chains|
    }

    ghost predicate LinkRight()
      reads this
    {
      IsLastWithData(chains, lastWithDatap)
    }

    ghost predicate Valid()
      reads this
    {
      Consistent() && LinkRight()
    }

    ghost predicate Compact()
      reads this
    {
      CompactList(chains)
    }

    constructor ()
      ensures Valid() && Compact() && chains == [] && Contents() == [] && !freezeStart && !freezeEnd
    {
      chains, last, lastWithDatap, totalLen := [], -1, 0, 0;
      freezeStart, freezeEnd := false, false;
    }

    // The first empty chunk at or after last_with_datap, or the end of the list
    method FirstVictim() returns (ch: nat)
      requires lastWithDatap <= |chains|
      ensures lastWithDatap <= ch <= |chains|
      ensures forall i :: lastWithDatap <= i < ch ==> chains[i].off != 0
      ensures ch < |chains| ==> chains[ch].off == 0
    {
      ch := lastWithDatap;
      while ch < |chains| && chains[ch].off != 0
        invariant lastWithDatap <= ch <= |chains|
        invariant forall i :: lastWithDatap <= i < ch ==> chains[i].off != 0
      {
        ch := ch + 1;
      }
    }

    method ChainInsert(chain: Chunk)
      requires Consistent() && InsertOk(chains, lastWithDatap)
      modifies this`chains, this`last, this`lastWithDatap, this`totalLen
      ensures Consistent() && Contents() == old(Contents()) + Data(chain)
      ensures Inserted(old(chains), old(lastWithDatap), chain, chains, lastWithDatap)
    {
      var ch := 0;
      if lastWithDatap != |chains| {
        ch := FirstVictim();
      }
      FlatReplaceTail(chains, ch, chain);
      assert chains[..0] + [chain] == [chain];
      if lastWithDatap == |chains| {
        chains, last := [chain], 0;
      } else {
        if ch == |chains| {
          assert chains[..ch] == chains;
          chains := chains + [chain];
          if chain.off != 0 {
            lastWithDatap := ch;
          }
        } else {
          chains := chains[..ch] + [chain];
        }
        last := |chains| - 1;
      }
      totalLen := totalLen + chain.off;
    }

    // The bytes go behind the data of the last chunk, which may have been realigned to c.
    method AppendToLast(c: Chunk, bytes: seq<Byte>)
      requires Consistent() && chains != [] && Data(c) == Data(chains[last]) && |bytes| <= SpaceLen(c)
      modifies this`chains, this`totalLen
      ensures Consistent() && Contents() == old(Contents()) + bytes
      ensures chains == old(chains)[last := AppendTo(c, bytes)]
      ensures old(LinkRight()) && c.off == old(chains)[last].off ==>
                (LinkRight() <==> lastWithDatap == last || c.off + |bytes| == 0)
    {
      hide AppendTo, Data;
      if LinkRight() && c.off == chains[last].off {
        LinkAfterFill(chains, lastWithDatap, AppendTo(c, bytes));
      }
      FlatAt(chains, last);
      FlatUpdate(chains, last, AppendTo(c, bytes));
      assert Flat(chains[last + 1..]) == [];
      chains := chains[last := AppendTo(c, bytes)];
      totalLen := totalLen + |bytes|;
    }

    // Fill the last chunk with the first bytes of data, which does not fit.
    method TopUpLast(data: seq<Byte>) returns (remain: nat)
      requires Consistent() && chains != [] && SpaceLen(chains[last]) < |data|
      modifies this`chains, this`totalLen
      ensures Consistent() && remain == SpaceLen(old(chains)[last]) && Contents() == old(Contents()) + data[..remain]
      ensures |chains| == |old(chains)| && chains[..last] == old(chains)[..last]
      ensures chains[last].off == old(chains)[last].off + remain
    {
      hide AppendTo, Data, Flat;
      var chain := chains[last];
      remain := SpaceLen(chain);
      if remain != 0 {
        AppendToLast(chain, data[..remain]);
      }
    }

    method AddOverflow(data: seq<Byte>)
      requires Valid() && chains != [] && AddSafe(chains, lastWithDatap, |data|) && !Fits(chains[last], |data|)
      modifies this`chains, this`last, this`lastWithDatap, this`totalLen
      ensures Consistent() && Contents() == old(Contents()) + data
      ensures LinkRight() <==> AddKeepsLink(old(chains), old(lastWithDatap), |data|)
      ensures old(Compact()) ==> Compact()
      ensures old(DataFirst(chains)) && LinkRight() ==> DataFirst(chains)
    {
      hide AppendTo, Data, Flat, Inserted, AddKeepsLink, CompactList, DataFirst;
      var toAlloc := |chains[last].mem|;
      if toAlloc <= MAX_AUTO_SIZE / 2 {
        toAlloc := 2 * toAlloc;
      }
      if |data| > toAlloc {
        toAlloc := |data|;
      }
      var tmp := NewChunk(toAlloc);
      var remain := TopUpLast(data);
      var c := AppendTo(tmp, data[remain..]);
      ghost var filled, lwd := chains, lastWithDatap;
      AddAssoc(old(Contents()), data[..remain], data[remain..]);
      assert data[..remain] + data[remain..] == data;
      AddSafeExact(old(chains), lwd, |data|, filled);
      ChainInsert(c);
      LinkAfterOverflow(old(chains), lwd, |data|, filled, c, chains, lastWithDatap);
      ShapeAfterOverflow(old(chains), lwd, filled, c, chains, lastWithDatap);
    }

    method Add(data: seq<Byte>) returns (r: int)
      requires Consistent()
      requires freezeEnd || (chains != [] && Fits(chains[last], |data|))
               || (LinkRight() && AddSafe(chains, lastWithDatap, |data|))
      modifies this`chains, this`last, this`lastWithDatap, this`totalLen
      ensures r == if freezeEnd then -1 else 0
      ensures r == -1 ==> unchanged(this)
      ensures r == 0 ==> Consistent() && Contents() == old(Contents()) + data
      ensures r == 0 && old(LinkRight()) ==> (LinkRight() <==> AddKeepsLink(old(chains), old(lastWithDatap), |data|))
      ensures r == 0 && old(DataBehind(chains, lastWithDatap)) ==> DataBehind(chains, lastWithDatap)
      ensures old(Compact()) ==> Compact()
      ensures old(chains) == [] && r == 0 ==>
                |chains| == 1 && |chains[0].mem| == ChunkSize(|data|) && chains[0].misalign == 0
      ensures old(DataFirst(chains) && LinkRight()) && LinkRight() ==> DataFirst(chains)
    {
      hide AppendTo, Data, Flat, Align;
      if freezeEnd {
        return -1;
      }
      if last == -1 {
        var first := NewChunk(|data|);
        FlatEmpty(chains);
        ChainInsert(first);
      }
      var chain := chains[last];
      ghost var cs, l := chains, lastWithDatap;
      if SpaceLen(chain) >= |data| {
        AppendToLast(chain, data);
        StillBehind(cs, l, chains);
        StillFirst(cs, l, chains);
      } else if ShouldRealign(chain, |data|) {
        AppendToLast(Align(chain), data);
        StillBehind(cs, l, chains);
        StillFirst(cs, l, chains);
      } else {
        AddOverflow(data);
      }
      r := 0;
    }

    // Put as much of the end of data as there is room for in front of the first chunk;
    // an empty chunk counts as empty at its beginning.
    method FillFront(data: seq<Byte>) returns (left: nat)
      requires Valid() && chains != []
      modifies this`chains, this`totalLen
      ensures Valid() && left <= |data| && Contents() == data[left..] + old(Contents())
      ensures |chains| == |old(chains)|
      ensures chains[0].off == 0 ==> left == 0
      ensures old(Compact()) ==> Compact()
      ensures old(DataFirst(chains)) ==> DataFirst(chains)
    {
      hide PrependTo, Data;
      var chain := chains[0];
      if chain.off == 0 {
        chain := AllSpaceInFront(chain);
      }
      left := |data| - Min(chain.misalign, |data|);
      var c := PrependTo(chain, data[left..]);
      FlatStep(chains, 0);
      assert chains[0..] == chains;
      FlatPush(c, chains[1..]);
      AddAssoc(data[left..], Data(chain), Flat(chains[1..]));
      chains := [c] + chains[1..];
      totalLen := totalLen + |data| - left;
    }

    method PushFront(bytes: seq<Byte>)
      requires Valid() && chains != [] && chains[0].off > 0 && bytes != []
      modifies this`chains, this`last, this`lastWithDatap, this`totalLen
      ensures Valid() && Contents() == bytes + old(Contents())
      ensures old(Compact()) ==> Compact()
      ensures DataFirst(chains)
    {
      hide PrependTo, Data, Flat;
      var tmp := NewChunk(|bytes|);
      var c := PrependTo(AllSpaceInFront(tmp), bytes);
      FlatPush(c, chains);
      chains, last, lastWithDatap := [c] + chains, last + 1, lastWithDatap + 1;
      totalLen := totalLen + |bytes|;
    }

    method Prepend(data: seq<Byte>) returns (r: int)
      requires Valid()
      modifies this`chains, this`last, this`lastWithDatap, this`totalLen
      ensures r == if freezeStart then -1 else 0
      ensures r == -1 ==> unchanged(this)
      ensures r == 0 ==> Valid() && Contents() == data + old(Contents())
      ensures old(Compact()) ==> Compact()
      ensures old(DataFirst(chains)) ==> DataFirst(chains)
    {
      hide Data, Flat;
      if freezeStart {
        return -1;
      }
      if chains == [] {
        var first := NewChunk(|data|);
        FlatEmpty(chains);
        ChainInsert(first);
      }
      var left := FillFront(data);
      if left > 0 {
        AddAssoc(data[..left], data[left..], old(Contents()));
        assert data[..left] + data[left..] == data;
        PushFront(data[..left]);
      }
      r := 0;
    }

    // ZERO_CHAIN, after every chunk has been freed
    method ZeroChain()
      modifies this`chains, this`last, this`lastWithDatap, this`totalLen
      ensures Valid() && Compact() && Contents() == []
      ensures chains == []
    {
      chains, last, lastWithDatap, totalLen := [], -1, 0, 0;
    }

    // Free the chunks that n bytes cover completely; n is less than what is there. The links
    // are into the old list until `first` is moved.
    method FreeCovered(n: nat) returns (i: nat, remaining: nat)
      requires Valid() && n < totalLen
      modifies this`lastWithDatap
      ensures i < |chains| && remaining < chains[i].off && |Flat(chains[..i])| + remaining == n
      ensures i <= old(lastWithDatap) && lastWithDatap == if i == old(lastWithDatap) then 0 else old(lastWithDatap)
      ensures i == Covered(chains, n) && remaining == Uncovered(chains, n)
    {
      hide Data, Flat, Covered, Uncovered, IsLastWithData;
      i, remaining := 0, n;
      assert chains[0..] == chains;
      ghost var l := lastWithDatap;
      assert chains[..0] == [];
      FlatEmpty([]);
      LinkNotBefore(chains, l, 0);
      while remaining >= chains[i].off
        invariant i <= l < |chains| && |Flat(chains[..i])| + remaining == n
        invariant lastWithDatap == if i == l then 0 else l
        invariant i + Covered(chains[i..], remaining) == Covered(chains, n)
        invariant Uncovered(chains[i..], remaining) == Uncovered(chains, n)
        decreases |chains| - i
      {
        CoveredNext(chains, i, remaining);
        FlatNext(chains, i);
        DataLen(chains[i]);
        remaining := remaining - chains[i].off;
        LinkNotBefore(chains, l, i + 1);
        // The chunk the link leads to is never freed here: n < totalLen and nothing is pinned.
        assert i < l;
        if i + 1 == lastWithDatap {
          lastWithDatap := 0;
        }
        i := i + 1;
      }
      CoveredNone(chains, i, remaining);
    }

    // Make chunk i the first, without its first `remaining` bytes, after FreeCovered.
    method MoveFirst(i: nat, remaining: nat, n: nat, ghost l: nat)
      requires Consistent() && IsLastWithData(chains, l) && lastWithDatap == if i == l then 0 else l
      requires i <= l && i < |chains| && remaining < chains[i].off && |Flat(chains[..i])| + remaining == n <= totalLen
      modifies this`chains, this`last, this`lastWithDatap, this`totalLen
      ensures Valid() && Contents() == old(Contents())[n..]
      ensures old(Compact()) ==> Compact()
      ensures DataFirst(chains)
    {
      hide Data, Flat;
      FlatDrop(chains, i, remaining);
      chains := [DropFront(chains[i], remaining)] + chains[i + 1..];
      lastWithDatap := if lastWithDatap == 0 then 0 else lastWithDatap - i;
      last := last - i;
      totalLen := totalLen - n;
    }

    method Drain(len: nat) returns (r: int)
      requires Valid()
      modifies this`chains, this`last, this`lastWithDatap, this`totalLen
      ensures r == if freezeStart && old(totalLen) > 0 then -1 else 0
      ensures r == -1 ==> unchanged(this)
      ensures r == 0 ==> Valid() && Contents() == old(Contents())[Min(len, old(totalLen))..]
      ensures old(Compact()) ==> Compact()
      ensures old(DataFirst(chains)) ==> DataFirst(chains)
    {
      hide Data, Flat;
      if totalLen == 0 {
        return 0;
      }
      if freezeStart {
        return -1;
      }
      if len >= totalLen {
        ZeroChain();
      } else {
        var i, remaining := FreeCovered(len);
        MoveFirst(i, remaining, len, old(lastWithDatap));
      }
      r := 0;
    }

    method CopyOut(len: nat) returns (r: int, out: seq<Byte>)
      requires Valid()
      ensures r == if Min(len, totalLen) > 0 && freezeStart then -1 else Min(len, totalLen)
      ensures out == if r > 0 then Contents()[..r] else []
    {
      hide Data, Flat;
      var left: nat := Min(len, totalLen);
      r, out := left, [];
      if left == 0 {
        return;
      }
      if freezeStart {
        return -1, [];
      }
      var i := 0;
      assert chains[..0] == [] && Flat(chains[..0]) == [] by { FlatEmpty(chains[..0]); }
      while left > 0 && left >= chains[i].off
        invariant i <= |chains| && out == Flat(chains[..i]) && |out| + left == r
        invariant left > 0 ==> i < |chains|
        decreases |chains| - i
      {
        FlatNext(chains, i);
        DataLen(chains[i]);
        out := out + Data(chains[i]);
        left := left - chains[i].off;
        i := i + 1;
        FlatSplit(chains, i);
        FlatEmpty(chains[i..]);
      }
      FlatSplit(chains, i);
      if left > 0 {
        FlatNext(chains, i);
        DataLen(chains[i]);
        FlatSplit(chains, i + 1);
        out := out + Data(chains[i])[..left];
        assert out == (Flat(chains[..i + 1]) + Flat(chains[i + 1..]))[..r];
      }
    }

    method Remove(len: nat) returns (r: int, out: seq<Byte>)
      requires Valid()
      modifies this`chains, this`last, this`lastWithDatap, this`totalLen
      ensures r == if Min(len, old(totalLen)) > 0 && freezeStart then -1 else Min(len, old(totalLen))
      ensures out == if r > 0 then old(Contents())[..r] else []
      ensures Valid() && Contents() == if r > 0 then old(Contents())[r..] else old(Contents())
      ensures old(Compact()) ==> Compact()
      ensures old(DataFirst(chains)) ==> DataFirst(chains)
    {
      r, out := CopyOut(len);
      if r > 0 {
        var d := Drain(r);
        if d < 0 {
          r := -1;
        }
      }
    }

    // COPY_CHAIN, APPEND_CHAIN and PREPEND_CHAIN take over the list of a buffer with data. As
    // positions, the links of the two lists are shifted by the length of what comes first.
    method CopyChain(src: Evbuffer)
      requires src.Valid() && src != this
      modifies this`chains, this`last, this`lastWithDatap, this`totalLen
      ensures Valid() && Contents() == src.Contents() && chains == src.chains
    {
      chains, last, lastWithDatap, totalLen := src.chains, src.last, src.lastWithDatap, src.totalLen;
    }

    method AppendChain(src: Evbuffer)
      requires Valid() && src.Valid() && src != this && totalLen > 0 && src.totalLen > 0
      modifies this`chains, this`last, this`lastWithDatap, this`totalLen
      ensures Valid() && Contents() == old(Contents()) + src.Contents() && chains == old(chains) + src.chains
      ensures old(Compact()) && src.Compact() ==> Compact()
      ensures old(DataFirst(chains)) ==> DataFirst(chains)
    {
      FlatEmpty(chains);
      hide Flat;
      FlatConcat(chains, src.chains);
      LinkConcat(chains, src.chains, src.lastWithDatap);
      if Compact() && src.Compact() {
        CompactConcat(chains, src.chains, lastWithDatap, src.lastWithDatap);
      }
      lastWithDatap := |chains| + src.lastWithDatap;
      chains := chains + src.chains;
      last := |chains| - 1;
      totalLen := totalLen + src.totalLen;
    }

    method PrependChain(src: Evbuffer)
      requires Valid() && src.Valid() && src != this && totalLen > 0 && src.totalLen > 0
      modifies this`chains, this`last, this`lastWithDatap, this`totalLen
      ensures Valid() && Contents() == src.Contents() + old(Contents())
      ensures old(Compact()) && src.Compact() ==> Compact()
      ensures src.chains != [] && src.chains[0].off > 0 ==> DataFirst(chains)
    {
      hide Flat;
      FlatConcat(src.chains, chains);
      LinkConcat(src.chains, chains, lastWithDatap);
      if Compact() && src.Compact() {
        CompactConcat(src.chains, chains, src.lastWithDatap, lastWithDatap);
      }
      lastWithDatap := |src.chains| + lastWithDatap;
      chains := src.chains + chains;
      last := |chains| - 1;
      totalLen := totalLen + src.totalLen;
    }

    method AddBuffer(inbuf: Evbuffer) returns (r: int)
      requires Valid() && inbuf.Valid()
      modifies this`chains, this`last, this`lastWithDatap, this`totalLen
      modifies inbuf`chains, inbuf`last, inbuf`lastWithDatap, inbuf`totalLen
      ensures r == if old(inbuf.totalLen) > 0 && inbuf != this && (freezeEnd || inbuf.freezeStart) then -1 else 0
      ensures r == -1 || inbuf == this ==> unchanged(this) && unchanged(inbuf)
      ensures r == 0 && inbuf != this ==> Contents() == old(Contents() + inbuf.Contents()) && inbuf.Contents() == []
      ensures r == 0 && inbuf != this && old(totalLen > 0 && inbuf.totalLen > 0) ==>
                chains == old(chains + inbuf.chains)
      ensures Valid() && inbuf.Valid()
      ensures old(Compact() && inbuf.Compact()) ==> Compact() && inbuf.Compact()
      ensures old(DataFirst(chains) && DataFirst(inbuf.chains)) ==> DataFirst(chains) && DataFirst(inbuf.chains)
      ensures inbuf != this ==> inbuf.chains == if r == 0 && old(inbuf.totalLen > 0) then [] else old(inbuf.chains)
    {
      hide Flat;
      if inbuf.totalLen == 0 || inbuf == this {
        return 0;
      }
      if freezeEnd || inbuf.freezeStart {
        return -1;
      }
      if totalLen == 0 {
        CopyChain(inbuf);
      } else {
        AppendChain(inbuf);
      }
      inbuf.ZeroChain();
      r := 0;
    }

    method PrependBuffer(inbuf: Evbuffer) returns (r: int)
      requires Valid() && inbuf.Valid()
      modifies this`chains, this`last, this`lastWithDatap, this`totalLen
      modifies inbuf`chains, inbuf`last, inbuf`lastWithDatap, inbuf`totalLen
      ensures r == if old(inbuf.totalLen) > 0 && inbuf != this && (freezeStart || inbuf.freezeStart) then -1 else 0
      ensures r == -1 || inbuf == this ==> unchanged(this) && unchanged(inbuf)
      ensures r == 0 && inbuf != this ==> Contents() == old(inbuf.Contents() + Contents()) && inbuf.Contents() == []
      ensures Valid() && inbuf.Valid()
      ensures old(Compact() && inbuf.Compact()) ==> Compact() && inbuf.Compact()
      ensures old(DataFirst(chains) && DataFirst(inbuf.chains)) ==> DataFirst(chains) && DataFirst(inbuf.chains)
    {
      hide Flat;
      if inbuf.totalLen == 0 || inbuf == this {
        return 0;
      }
      if freezeStart || inbuf.freezeStart {
        return -1;
      }
      FlatEmpty(inbuf.chains);
      if totalLen == 0 {
        CopyChain(inbuf);
      } else {
        PrependChain(inbuf);
      }
      inbuf.ZeroChain();
      r := 0;
    }

    // advance_last_with_data
    method AdvanceLastWithData()
      requires lastWithDatap <= |chains|
      modifies this`lastWithDatap
      ensures old(lastWithDatap) <= lastWithDatap <= |chains|
      ensures old(lastWithDatap) == |chains| ==> lastWithDatap == |chains|
      ensures forall i :: old(lastWithDatap) < i <= lastWithDatap && i < |chains| ==> chains[i].off > 0
      ensures old(lastWithDatap) < |chains| ==>
                lastWithDatap < |chains| && (lastWithDatap + 1 < |chains| ==> chains[lastWithDatap + 1].off == 0)
    {
      if lastWithDatap == |chains| {
        return;
      }
      while lastWithDatap + 1 < |chains| && chains[lastWithDatap + 1].off > 0
        invariant old(lastWithDatap) <= lastWithDatap < |chains|
        invariant forall i :: old(lastWithDatap) < i <= lastWithDatap ==> chains[i].off > 0
        decreases |chains| - lastWithDatap
      {
        lastWithDatap := lastWithDatap + 1;
      }
    }

    // Chunks taken from another buffer replace the trailing empty chunks.
    method ReceiveChunks(moved: seq<Chunk>, nread: nat) returns (ghost ch: nat)
      requires Valid() && moved != [] && !AllEmpty(moved) && nread == |Flat(moved)|
      modifies this`chains, this`last, this`lastWithDatap, this`totalLen
      ensures Consistent() && Contents() == old(Contents()) + Flat(moved)
      ensures ch <= |old(chains)| && chains == old(chains)[..ch] + moved
      ensures if GapFree(old(chains), moved) then LinkRight() && lastWithDatap == ch + LastData(moved)
              else DataBehind(chains, lastWithDatap)
      ensures old(Compact()) && NoneEmpty(moved) ==> Compact()
      ensures old(DataFirst(chains)) && moved[0].off > 0 ==> DataFirst(chains)
    {
      hide Flat, GapFree, AllEmpty, CompactList, NoneEmpty, LastData, DataBehind;
      var at := FirstVictim();
      ch := at;
      ghost var cs, l := chains, lastWithDatap;
      chains := chains[..at] + moved;
      last := |chains| - 1;
      JoinedFlat(cs, l, ch, moved, chains);
      JoinedFirst(cs, l, ch, moved, chains);
      if CompactList(cs) && NoneEmpty(moved) {
        JoinedCompact(cs, l, ch, moved, chains);
      }
      hide IsLastWithData;
      AdvanceLastWithData();
      LinkAfterMove(cs, l, ch, moved, chains, lastWithDatap);
      totalLen := totalLen + nread;
    }

    // Chunks taken from another buffer, and a copy of the bytes that come next
    method Take(moved: seq<Chunk>, nread: nat, part: seq<Byte>)
      requires Valid() && !freezeEnd && nread == |Flat(moved)| && TakeSafe(chains, lastWithDatap, moved, |part|)
      modifies this`chains, this`last, this`lastWithDatap, this`totalLen
      ensures Consistent() && Contents() == old(Contents()) + Flat(moved) + part
      ensures LinkRight() <==> TakeKeepsLink(old(chains), old(lastWithDatap), moved, |part|)
      ensures old(Compact()) && NoneEmpty(moved) ==> Compact()
      ensures old(DataFirst(chains)) && LinkRight() && (moved == [] || moved[0].off > 0) ==> DataFirst(chains)
    {
      hide Flat, AddSafe, AddKeepsLink, GapFree, Fits;
      FlatEmpty(moved);
      if nread != 0 {
        ghost var ch := ReceiveChunks(moved, nread);
        AddBehind(old(chains)[..ch], moved, |part|);
      }
      var _ := Add(part);
    }

    // The first bytes with data are dropped, while the empty chunks in front of them stay.
    method DropBehindEmpty(i: nat, n: nat, ghost l: nat)
      requires Consistent() && IsLastWithData(chains, l) && lastWithDatap == if i == l then 0 else l
      requires i <= l && i < |chains| && n < chains[i].off && n <= totalLen && AllEmpty(chains[..i])
      modifies this`chains, this`totalLen
      ensures Consistent() && Contents() == old(Contents())[n..]
      ensures LinkRight() <==> i == 0 || i != l
      ensures old(Compact()) ==> Compact()
      ensures i == 0 ==> DataFirst(chains)
    {
      hide Data, Flat;
      var c := DropFront(chains[i], n);
      FlatEmpty(chains[..i]);
      FlatAt(chains, i);
      FlatUpdate(chains, i, c);
      DataLen(chains[i]);
      chains := chains[i := c];
      totalLen := totalLen - n;
      assert chains[i].off > 0;
    }

    // The case in which something is left
    method MoveSome(dst: Evbuffer, len: nat)
      requires Valid() && dst.Valid() && MovesSome(dst, len)
      requires TakeSafe(dst.chains, dst.lastWithDatap, chains[..Covered(chains, len)], Uncovered(chains, len))
      modifies this`chains, this`last, this`lastWithDatap, this`totalLen
      modifies dst`chains, dst`last, dst`lastWithDatap, dst`totalLen
      ensures Contents() == old(Contents())[len..] && dst.Contents() == old(dst.Contents()) + old(Contents())[..len]
      ensures Consistent() && dst.Consistent()
      ensures LinkRight() <==> SourceKeepsLink(old(chains), old(lastWithDatap), len)
      ensures dst.LinkRight() <==>
                TakeKeepsLink(old(dst.chains), old(dst.lastWithDatap), old(chains)[..Covered(old(chains), len)],
                              Uncovered(old(chains), len))
      ensures old(Compact() && dst.Compact()) ==> Compact() && dst.Compact()
      ensures old(DataFirst(chains)) ==> LinkRight() && DataFirst(chains)
      ensures old(DataFirst(chains) && DataFirst(dst.chains)) && dst.LinkRight() ==> DataFirst(dst.chains)
    {
      hide Flat, Data, TakeSafe, TakeKeepsLink, Covered, Uncovered, IsLastWithData;
      ghost var l := lastWithDatap;
      if Compact() {
        CompactWithData(chains, l);
      }
      if DataFirst(chains) {
        DataFirstKeepsLink(chains, l, len);
      }
      var i, remaining := FreeCovered(len);
      FlatTake(chains, i, remaining);
      DataLen(chains[i]);
      FlatEmpty(chains[..i]);
      var part := Data(chains[i])[..remaining];
      AddAssoc(dst.Contents(), Flat(chains[..i]), part);
      dst.Take(chains[..i], len - remaining, part);
      if remaining != len {
        MoveFirst(i, remaining, len, l);
      } else {
        DropBehindEmpty(i, remaining, l);
      }
    }

    /** evbuffer_remove_buffer: move the first bytes to the end of dst, whole chunks without
        copying. */
    method RemoveBuffer(dst: Evbuffer, len: nat) returns (r: int)
      requires Valid() && dst.Valid()
      requires MovesSome(dst, len) ==>
                 TakeSafe(dst.chains, dst.lastWithDatap, chains[..Covered(chains, len)], Uncovered(chains, len))
      modifies this`chains, this`last, this`lastWithDatap, this`totalLen
      modifies dst`chains, dst`last, dst`lastWithDatap, dst`totalLen
      ensures r == if len == 0 || dst == this then 0
                   else if dst.freezeEnd || freezeStart then -1 else Min(len, old(totalLen))
      ensures dst == this || r == -1 ==> unchanged(this) && unchanged(dst)
      ensures dst != this && r >= 0 ==>
                Contents() == old(Contents())[r..] && dst.Contents() == old(dst.Contents()) + old(Contents())[..r]
      ensures Consistent() && dst.Consistent()
      ensures LinkRight() <==> (old(MovesSome(dst, len)) ==> SourceKeepsLink(old(chains), old(lastWithDatap), len))
      ensures dst != this ==>
                (dst.LinkRight() <==>
                   (old(MovesSome(dst, len)) ==>
                      TakeKeepsLink(old(dst.chains), old(dst.lastWithDatap), old(chains)[..Covered(old(chains), len)],
                                    Uncovered(old(chains), len))))
      ensures old(Compact() && dst.Compact()) ==> Compact() && dst.Compact()
      ensures old(DataFirst(chains)) ==> LinkRight() && DataFirst(chains)
      ensures old(DataFirst(chains) && DataFirst(dst.chains)) && dst.LinkRight() ==> DataFirst(dst.chains)
    {
      hide Flat, Data, TakeSafe, TakeKeepsLink, Covered, Uncovered, IsLastWithData, SourceKeepsLink, CompactList;
      if len == 0 || dst == this {
        return 0;
      }
      if dst.freezeEnd || freezeStart {
        return -1;
      }
      if len >= totalLen {
        r := totalLen;
        var _ := dst.AddBuffer(this);
        return;
      }
      MoveSome(dst, len);
      r := len;
    }

    // Something is moved, and not everything
    predicate MovesSome(dst: Evbuffer, len: nat)
      reads this, dst
    {
      dst != this && !dst.freezeEnd && !freezeStart && 0 < len < totalLen
    }

    // Copy and free every chunk from `start` on that goes entirely into the first n bytes,
    // noting whether the chunk last_with_datap leads to, or the one holding the link, goes.
    method Gather(first: Chunk, start: nat, n: nat) returns (tmp: Chunk, i: nat, removedLast: bool, removedLink: bool)
      requires Valid() && start <= |chains| && Data(first) == Flat(chains[..start])
      requires first.off <= n <= totalLen && n <= |first.mem| - first.misalign
      ensures start <= i <= |chains| && Data(tmp) == Flat(chains[..i]) && tmp.off <= n <= |tmp.mem| - tmp.misalign
      ensures if i < |chains| then n - tmp.off < chains[i].off else tmp.off == n
      ensures removedLast <==> start <= lastWithDatap < i
      ensures removedLink <==> start < lastWithDatap <= i
    {
      hide Data, Flat, AppendTo;
      tmp, i, removedLast, removedLink := first, start, false, false;
      while i < |chains| && n - tmp.off >= chains[i].off
        invariant start <= i <= |chains| && Data(tmp) == Flat(chains[..i])
        invariant tmp.off <= n <= |tmp.mem| - tmp.misalign
        invariant removedLast <==> start <= lastWithDatap < i
        invariant removedLink <==> start < lastWithDatap <= i
      {
        FlatNext(chains, i);
        DataLen(chains[i]);
        tmp := AppendTo(tmp, Data(chains[i]));
        removedLast := removedLast || i == lastWithDatap;
        removedLink := removedLink || i + 1 == lastWithDatap;
        i := i + 1;
      }
      DataLen(tmp);
      assert i == |chains| ==> chains[..i] == chains;
    }

    // Replace the gathered chunks, and what is taken from chunk i, by one chunk.
    method InstallGathered(tmp: Chunk, i: nat, n: nat)
      requires Consistent() && i <= |chains| && Data(tmp) == Flat(chains[..i]) && 0 < n <= |tmp.mem| - tmp.misalign
               && tmp.off <= n
      requires if i < |chains| then n - tmp.off < chains[i].off else tmp.off == n
      modifies this`chains, this`last
      ensures Contents() == old(Contents()) && last == |chains| - 1 && |chains| == |old(chains)| - i + 1
      ensures chains[0].off == n && Data(chains[0]) == Contents()[..n]
      ensures i < |old(chains)| ==> chains[1].off > 0 && chains[2..] == old(chains)[i + 1..]
    {
      hide Data, Flat, AppendTo;
      DataLen(tmp);
      if i < |chains| {
        var rest := n - tmp.off;
        DataLen(chains[i]);
        FlatTake(chains, i, rest);
        FlatDrop(chains, i, rest);
        var whole, left := AppendTo(tmp, Data(chains[i])[..rest]), [DropFront(chains[i], rest)] + chains[i + 1..];
        FlatPush(whole, left);
        assert Contents()[..n] + Contents()[n..] == Contents();
        chains := [whole] + left;
        last := last - i + 1;
      } else {
        assert chains[..i] == chains;
        FlatOne(tmp);
        assert Contents()[..n] == Contents();
        chains, last := [tmp], 0;
      }
    }

    // evbuffer_pullup when the first chunk does not hold the first n bytes
    method PullupAcross(n: nat)
      requires Valid() && chains != [] && chains[0].off < n <= totalLen
      modifies this`chains, this`last, this`lastWithDatap
      ensures Valid() && Contents() == old(Contents())
      ensures chains != [] && Data(chains[0]) == Contents()[..n]
      ensures old(Compact()) ==> Compact()
      ensures old(DataFirst(chains)) ==> DataFirst(chains)
    {
      hide Data, Flat;
      var chain := chains[0];
      ghost var cs, l := chains, lastWithDatap;
      assert Flat(chains[..0]) == [] by { FlatEmpty(chains[..0]); }
      assert Flat(chains[..1]) == Data(chain) by { FlatNext(chains, 0); }
      DataLen(chain);
      LinkNotBefore(chains, lastWithDatap, 1);
      var tmp, i, removedLast, removedLink;
      if |chain.mem| - chain.misalign >= n {
        tmp, i, removedLast, removedLink := Gather(chain, 1, n);
      } else {
        var first := NewChunk(n);
        tmp, i, removedLast, removedLink := Gather(first, 0, n);
      }
      InstallGathered(tmp, i, n);
      LinkAfterGather(cs, l, i, chains);
      if removedLast {
        lastWithDatap := 0;
      } else if removedLink {
        // The source falls back to `first` if the second chunk is missing or empty; it never is.
        assert |chains| > 1 && chains[1].off > 0;
        lastWithDatap := 1;
      } else {
        lastWithDatap := lastWithDatap - i + 1;
      }
      if old(Compact()) {
        CompactWithData(cs, l);
      }
    }

    /** evbuffer_pullup: make the first bytes contiguous; a negative size means all of them.
        None stands for NULL. */
    method Pullup(size: int) returns (r: Option<seq<Byte>>)
      requires Valid()
      modifies this`chains, this`last, this`lastWithDatap
      ensures Valid() && Contents() == old(Contents())
      ensures var n := if size < 0 then totalLen else size;
              r == if 0 < n <= totalLen then Some(Contents()[..n]) else None
      ensures r.Some? ==> chains != [] && r.value <= Data(chains[0])
      ensures old(Compact()) ==> Compact()
      ensures old(DataFirst(chains)) ==> DataFirst(chains)
    {
      hide Data, Flat;
      var n := if size < 0 then totalLen else size;
      if n == 0 || n > totalLen {
        return None;
      }
      FlatEmpty(chains);
      if chains[0].off >= n {
        FlatStep(chains, 0);
        assert chains[0..] == chains;
        DataLen(chains[0]);
        assert (Data(chains[0]) + Flat(chains[1..]))[..n] == Data(chains[0])[..n];
        return Some(Data(chains[0])[..n]);
      }
      PullupAcross(n);
      r := Some(Data(chains[0]));
    }
  }
}