/**
 Searching an evbuffer and reading lines from it: positions are found chunk by chunk, and
 have to be those a scan of the whole byte string would find.
 */
module EvbufferSearch {
  import opened Chunks
  import opened Evbuffers
  import opened Wrappers

  const CR: Byte := 13
  const LF: Byte := 10
  const CHUNK_SZ := 128

  // An evbuffer_ptr; chain == |cs| stands for a null chain pointer.
  datatype Ptr = Ptr(pos: nat, chain: nat, inChain: nat)

  ghost function Before(cs: seq<Chunk>, i: nat): nat
    requires i <= |cs|
  {
    |Flat(cs[..i])|
  }

  ghost predicate ValidPtr(cs: seq<Chunk>, p: Ptr) {
    && p.chain <= |cs|
    && p.pos == Before(cs, p.chain) + p.inChain
    && p.inChain <= if p.chain < |cs| then cs[p.chain].off else 0
  }

  // The bytes of chunk i, in the byte string
  lemma ChunkAt(cs: seq<Chunk>, i: nat)
    requires i < |cs|
    ensures Before(cs, i + 1) == Before(cs, i) + cs[i].off <= |Flat(cs)|
    ensures Flat(cs)[Before(cs, i)..Before(cs, i + 1)] == Data(cs[i])
    ensures forall k :: 0 <= k < cs[i].off ==> Flat(cs)[Before(cs, i) + k] == Data(cs[i])[k]
  {
    hide Flat, Data;
    FlatNext(cs, i);
    FlatSplit(cs, i + 1);
    DataLen(cs[i]);
    var s := Flat(cs);
    assert s[..Before(cs, i + 1)] == Flat(cs[..i]) + Data(cs[i]);
    forall k | 0 <= k < cs[i].off
      ensures s[Before(cs, i) + k] == Data(cs[i])[k]
    {
      assert s[Before(cs, i) + k] == s[..Before(cs, i + 1)][Before(cs, i) + k];
    }
  }

  lemma BeforeEnds(cs: seq<Chunk>)
    ensures Before(cs, 0) == 0 && Before(cs, |cs|) == |Flat(cs)|
  {
    assert cs[..|cs|] == cs;
  }

  function Memchr(s: seq<Byte>, b: Byte): (r: Option<nat>)
    ensures r.None? ==> forall k :: 0 <= k < |s| ==> s[k] != b
    ensures r.Some? ==> r.value < |s| && s[r.value] == b && forall k :: 0 <= k < r.value ==> s[k] != b
  {
    if s == [] then None
    else if s[0] == b then Some(0)
    else
      var t := Memchr(s[1..], b);
      assert forall k :: 1 <= k < |s| ==> s[k] == s[1..][k - 1];
      if t.None? then None else Some(t.value + 1)
  }

  ghost predicate FirstOf(s: seq<Byte>, stops: set<Byte>, from: nat, r: Option<nat>) {
    if r.None? then forall k :: from <= k < |s| ==> s[k] !in stops
    else from <= r.value < |s| && s[r.value] in stops && forall k :: from <= k < r.value ==> s[k] !in stops
  }

  /** find_eol_char: two memchrs on blocks of 128 bytes find the first CR or LF. */
  method FindEolChar(s: seq<Byte>) returns (r: Option<nat>)
    ensures FirstOf(s, {CR, LF}, 0, r)
  {
    var i := 0;
    while i < |s|
      invariant forall k :: 0 <= k < i && k < |s| ==> s[k] !in {CR, LF}
    {
      var chunk := if i + CHUNK_SZ < |s| then CHUNK_SZ else |s| - i;
      var block := s[i..i + chunk];
      var cr, lf := Memchr(block, CR), Memchr(block, LF);
      assert forall k :: i <= k < i + chunk ==> s[k] == block[k - i];
      if cr.Some? {
        if lf.Some? && lf.value < cr.value {
          return Some(i + lf.value);
        }
        return Some(i + cr.value);
      } else if lf.Some? {
        return Some(i + lf.value);
      }
      i := i + CHUNK_SZ;
    }
    r := None;
  }

  // What a search of the rest of chunk i says about the byte string
  lemma FoundInChunk(cs: seq<Chunk>, i: nat, from: nat, stops: set<Byte>, r: Option<nat>)
    requires i < |cs| && from <= cs[i].off && |Data(cs[i])| == cs[i].off && FirstOf(Data(cs[i])[from..], stops, 0, r)
    ensures Before(cs, i + 1) == Before(cs, i) + cs[i].off <= |Flat(cs)|
    ensures r.Some? ==> r.value < cs[i].off - from && Flat(cs)[Before(cs, i) + from + r.value] in stops
    ensures var stop := if r.Some? then Before(cs, i) + from + r.value else Before(cs, i + 1);
              forall k :: Before(cs, i) + from <= k < stop ==> Flat(cs)[k] !in stops
  {
    hide Flat, Data;
    ChunkAt(cs, i);
    var at, d := Before(cs, i) + from, Data(cs[i])[from..];
    forall k | at <= k < Before(cs, i + 1)
      ensures Flat(cs)[k] == d[k - at]
    {
      assert d[k - at] == Data(cs[i])[k - Before(cs, i)];
    }
  }

  /** evbuffer_strchr with '\n', and evbuffer_find_eol_char: the first stop character at or
      after `it`. */
  method ScanFor(cs: seq<Chunk>, it: Ptr, stops: set<Byte>) returns (r: Option<Ptr>)
    requires ValidPtr(cs, it) && (stops == {LF} || stops == {CR, LF})
    ensures FirstOf(Flat(cs), stops, it.pos, if r.Some? then Some(r.value.pos) else None)
    ensures r.Some? ==> ValidPtr(cs, r.value) && r.value.chain < |cs| && r.value.inChain < cs[r.value.chain].off
  {
    hide Flat, Data;
    var chain: nat, i: nat, pos: nat := it.chain, it.inChain, it.pos;
    BeforeEnds(cs);
    while chain < |cs|
      invariant ValidPtr(cs, Ptr(pos, chain, i)) && it.pos <= pos
      invariant forall k :: it.pos <= k < pos ==> k < |Flat(cs)| && Flat(cs)[k] !in stops
    {
      DataLen(cs[chain]);
      var part := Data(cs[chain])[i..];
      var cp;
      if stops == {LF} {
        cp := Memchr(part, LF);
      } else {
        cp := FindEolChar(part);
      }
      FoundInChunk(cs, chain, i, stops, cp);
      if cp.Some? {
        return Some(Ptr(pos + cp.value, chain, i + cp.value));
      }
      pos := pos + cs[chain].off - i;
      i, chain := 0, chain + 1;
    }
    r := None;
  }

  ghost predicate IsMatch(s: seq<Byte>, what: seq<Byte>, p: nat) {
    p + |what| <= |s| && forall k :: 0 <= k < |what| ==> s[p + k] == what[k]
  }

  // The n bytes at a position inside chunk i are those of `what` from `done` on.
  lemma PartMatches(cs: seq<Chunk>, i: nat, from: nat, n: nat, what: seq<Byte>, done: nat)
    requires i < |cs| && from + n <= cs[i].off && done + n <= |what|
    ensures |Data(cs[i])| == cs[i].off && Before(cs, i) + from + n <= |Flat(cs)|
    ensures Data(cs[i])[from..from + n] == what[done..done + n] <==>
            forall k :: done <= k < done + n ==> Flat(cs)[Before(cs, i) + from + k - done] == what[k]
  {
    hide Flat, Data;
    ChunkAt(cs, i);
    DataLen(cs[i]);
    var d, w, s := Data(cs[i])[from..from + n], what[done..done + n], Flat(cs);
    forall k | done <= k < done + n
      ensures s[Before(cs, i) + from + k - done] == d[k - done] && w[k - done] == what[k]
    {
      assert d[k - done] == Data(cs[i])[from + k - done];
    }
    if d != w {
      var j :| 0 <= j < n && d[j] != w[j];
      assert what[done + j] == w[j];
    }
  }

  // evbuffer_ptr_memcmp, as far as it is used: whether the bytes at p are `what`
  method PtrMatches(cs: seq<Chunk>, total: nat, p: Ptr, what: seq<Byte>) returns (eq: bool)
    requires ValidPtr(cs, p) && total == |Flat(cs)|
    ensures eq <==> IsMatch(Flat(cs), what, p.pos)
  {
    hide Flat, Data;
    if p.pos + |what| > total {
      return false;
    }
    var chain: nat, position: nat, done: nat := p.chain, p.inChain, 0;
    ghost var s := Flat(cs);
    BeforeEnds(cs);
    while done < |what| && chain < |cs|
      invariant done <= |what| && (done < |what| ==> ValidPtr(cs, Ptr(p.pos + done, chain, position)))
      invariant forall k :: 0 <= k < done ==> s[p.pos + k] == what[k]
    {
      var left := |what| - done;
      var n := if left + position > cs[chain].off then cs[chain].off - position else left;
      PartMatches(cs, chain, position, n, what, done);
      ChunkAt(cs, chain);
      if Data(cs[chain])[position..position + n] != what[done..done + n] {
        ghost var k :| done <= k < done + n && s[Before(cs, chain) + position + k - done] != what[k];
        return false;
      }
      done, position, chain := done + n, 0, chain + 1;
    }
    eq := true;
  }

  // r is the first match of `what` at or after `from` that ends at `limit` at the latest.
  ghost predicate FirstMatch(s: seq<Byte>, what: seq<Byte>, from: nat, limit: nat, r: Option<nat>) {
    if r.None? then forall q :: from <= q && q + |what| <= limit ==> !IsMatch(s, what, q)
    else
      && from <= r.value && r.value + |what| <= limit && IsMatch(s, what, r.value)
      && forall q :: from <= q < r.value ==> !IsMatch(s, what, q)
  }

  // No match starts where the first byte differs.
  lemma NoMatchBetween(s: seq<Byte>, what: seq<Byte>, lo: nat, hi: nat)
    requires what != [] && hi <= |s| && forall q :: lo <= q < hi ==> s[q] != what[0]
    ensures forall q :: lo <= q < hi ==> !IsMatch(s, what, q)
  {
    forall q | lo <= q < hi
      ensures !IsMatch(s, what, q)
    {
      assert s[q + 0] != what[0];
    }
  }

  lemma MatchFits(s: seq<Byte>, what: seq<Byte>, p: nat)
    requires IsMatch(s, what, p)
    ensures p + |what| <= |s|
  {
  }

  // The next place in the chunk where the first byte of the pattern is
  method NextCandidate(cs: seq<Chunk>, what: seq<Byte>, pos: Ptr) returns (p: Option<nat>)
    requires ValidPtr(cs, pos) && pos.chain < |cs| && what != []
    ensures pos.pos + cs[pos.chain].off - pos.inChain == Before(cs, pos.chain + 1) <= |Flat(cs)|
    ensures p.Some? ==> p.value < cs[pos.chain].off - pos.inChain
    ensures var stop := if p.Some? then pos.pos + p.value else Before(cs, pos.chain + 1);
      forall q :: pos.pos <= q < stop ==> !IsMatch(Flat(cs), what, q)
  {
    hide Flat, Data, IsMatch;
    DataLen(cs[pos.chain]);
    p := Memchr(Data(cs[pos.chain])[pos.inChain..], what[0]);
    FoundInChunk(cs, pos.chain, pos.inChain, {what[0]}, p);
    NoMatchBetween(Flat(cs), what, pos.pos, if p.Some? then pos.pos + p.value else Before(cs, pos.chain + 1));
  }

  /** evbuffer_search_range: the first match at or after `start`, if it ends at `end` at the latest;
      None stands for position -1. An empty pattern is found where the search starts. Without an
      end this is evbuffer_search. */
  method Search(cs: seq<Chunk>, total: nat, what: seq<Byte>, start: Ptr, end: Option<Ptr>) returns (r: Option<Ptr>)
    requires ValidPtr(cs, start) && total == |Flat(cs)| && (end.Some? ==> ValidPtr(cs, end.value))
    ensures what == [] ==> r == Some(start)
    ensures what != [] ==>
              FirstMatch(Flat(cs), what, start.pos, if end.Some? then end.value.pos else total,
                         if r.Some? then Some(r.value.pos) else None)
    ensures r.Some? ==> ValidPtr(cs, r.value)
  {
    hide Flat, Data, IsMatch;
    if what == [] {
      return Some(start);
    }
    ghost var s := Flat(cs);
    BeforeEnds(cs);
    var pos := start;
    while pos.chain < |cs|
      invariant ValidPtr(cs, pos) && start.pos <= pos.pos
      invariant forall q :: start.pos <= q < pos.pos ==> !IsMatch(s, what, q)
      decreases |cs| - pos.chain, if pos.chain < |cs| then cs[pos.chain].off - pos.inChain else 0
    {
      var p := NextCandidate(cs, what, pos);
      if p.Some? {
        pos := Ptr(pos.pos + p.value, pos.chain, pos.inChain + p.value);
        var eq := PtrMatches(cs, total, pos, what);
        if eq {
          MatchFits(s, what, pos.pos);
          return if end.Some? && pos.pos + |what| > end.value.pos then None else Some(pos);
        }
        pos := Ptr(pos.pos + 1, pos.chain, pos.inChain + 1);
        if pos.inChain == cs[pos.chain].off {
          pos := Ptr(pos.pos, pos.chain + 1, 0);
        }
      } else {
        if end.Some? && end.value.chain == pos.chain {
          return None;
        }
        pos := Ptr(pos.pos + cs[pos.chain].off - pos.inChain, pos.chain + 1, 0);
      }
    }
    PtrInside(cs, end);
    r := None;
  }

  lemma PtrInside(cs: seq<Chunk>, p: Option<Ptr>)
    requires p.Some? ==> ValidPtr(cs, p.value)
    ensures p.Some? ==> p.value.pos <= |Flat(cs)|
  {
    hide Flat, Data;
    BeforeEnds(cs);
    if p.Some? && p.value.chain < |cs| {
      ChunkAt(cs, p.value.chain);
    }
  }

  // evbuffer_ptr_set with EVBUFFER_PTR_ADD; None stands for -1.
  method PtrAdd(cs: seq<Chunk>, p: Ptr, n: nat) returns (r: Option<Ptr>)
    requires ValidPtr(cs, p)
    ensures r.Some? <==> p.pos + n < |Flat(cs)|
    ensures r.Some? ==> ValidPtr(cs, r.value) && r.value.pos == p.pos + n
  {
    hide Flat, Data;
    var left: nat, chain: nat, position: nat := n, p.chain, p.inChain;
    BeforeEnds(cs);
    while chain < |cs| && position + left >= cs[chain].off
      invariant left <= n && ValidPtr(cs, Ptr(p.pos + n - left, chain, position))
    {
      ChunkAt(cs, chain);
      left := left - (cs[chain].off - position);
      chain, position := chain + 1, 0;
    }
    if chain < |cs| {
      ChunkAt(cs, chain);
      r := Some(Ptr(p.pos + n, chain, position + left));
    } else {
      r := None;
    }
  }

  // The length of the run of stop characters at p
  ghost predicate IsRun(s: seq<Byte>, stops: set<Byte>, p: nat, n: nat) {
    && p + n <= |s| && (forall k :: p <= k < p + n ==> s[k] in stops)
    && (p + n < |s| ==> s[p + n] !in stops)
  }

  // evbuffer_strspn; -1 for a pointer without a chunk
  method Strspn(cs: seq<Chunk>, p: Ptr, stops: set<Byte>) returns (count: int)
    requires ValidPtr(cs, p)
    ensures if p.chain == |cs| then count == -1 else count >= 0 && IsRun(Flat(cs), stops, p.pos, count)
  {
    hide Flat, Data;
    if p.chain == |cs| {
      return -1;
    }
    var chain: nat, i: nat := p.chain, p.inChain;
    ghost var s := Flat(cs);
    count := 0;
    BeforeEnds(cs);
    while true
      invariant count >= 0 && chain < |cs| && ValidPtr(cs, Ptr(p.pos + count, chain, i))
      invariant forall k :: p.pos <= k < p.pos + count ==> k < |s| && s[k] in stops
      decreases |cs| - chain
    {
      ChunkAt(cs, chain);
      DataLen(cs[chain]);
      while i < cs[chain].off
        invariant count >= 0 && ValidPtr(cs, Ptr(p.pos + count, chain, i))
        invariant forall k :: p.pos <= k < p.pos + count ==> k < |s| && s[k] in stops
      {
        if Data(cs[chain])[i] !in stops {
          return;
        }
        count, i := count + 1, i + 1;
      }
      i := 0;
      if chain + 1 == |cs| {
        return;
      }
      chain := chain + 1;
    }
  }

  datatype EolStyle = Any | Crlf | CrlfStrict | Lf

  // A line end of the style starts at p and is len bytes long.
  ghost predicate EolAt(s: seq<Byte>, style: EolStyle, p: nat, len: nat) {
    p < |s| &&
    match style
    case Any => s[p] in {CR, LF} && IsRun(s, {CR, LF}, p, len)
    case Crlf => (s[p] == LF && len == 1) || (IsMatch(s, [CR, LF], p) && len == 2)
    case CrlfStrict => IsMatch(s, [CR, LF], p) && len == 2
    case Lf => s[p] == LF && len == 1
  }

  ghost predicate StartsEol(s: seq<Byte>, style: EolStyle, p: nat) {
    p < |s| &&
    match style
    case Any => s[p] in {CR, LF}
    case Crlf => s[p] == LF || IsMatch(s, [CR, LF], p)
    case CrlfStrict => IsMatch(s, [CR, LF], p)
    case Lf => s[p] == LF
  }

  lemma StartsEolMeans(s: seq<Byte>, style: EolStyle, p: nat, len: nat)
    ensures EolAt(s, style, p, len) ==> StartsEol(s, style, p) && 0 < len && p + len <= |s|
  {
    if EolAt(s, style, p, len) && style.Any? {
      assert p + len < |s| ==> s[p + len] !in {CR, LF};
    }
  }

  datatype Eol = Eol(at: Ptr, len: nat)

  // r is the first line end at or after `from`.
  ghost predicate FirstEol(s: seq<Byte>, style: EolStyle, from: nat, r: Option<Eol>) {
    if r.None? then forall q :: from <= q < |s| ==> !StartsEol(s, style, q)
    else from <= r.value.at.pos && EolAt(s, style, r.value.at.pos, r.value.len)
         && forall q :: from <= q < r.value.at.pos ==> !StartsEol(s, style, q)
  }

  // The EVBUFFER_EOL_CRLF case: a CR without LF behind it is passed over.
  method SearchCrlf(cs: seq<Chunk>, total: nat, start: Ptr) returns (r: Option<Eol>)
    requires ValidPtr(cs, start) && total == |Flat(cs)|
    ensures FirstEol(Flat(cs), Crlf, start.pos, r)
    ensures r.Some? ==> ValidPtr(cs, r.value.at)
  {
    hide Flat, Data;
    ghost var s := Flat(cs);
    var it := start;
    while true
      invariant ValidPtr(cs, it) && start.pos <= it.pos
      invariant forall q :: start.pos <= q < it.pos ==> !StartsEol(s, Crlf, q)
      decreases |Flat(cs)| - it.pos
    {
      var found := ScanFor(cs, it, {CR, LF});
      CrlfStarts(s, it.pos, if found.Some? then found.value.pos else |s|);
      if found.None? {
        return None;
      }
      it := found.value;
      ChunkAt(cs, it.chain);
      DataLen(cs[it.chain]);
      if Data(cs[it.chain])[it.inChain] == LF {
        return Some(Eol(it, 1));
      }
      var eq := PtrMatches(cs, total, it, [CR, LF]);
      if eq {
        return Some(Eol(it, 2));
      }
      var next := PtrAdd(cs, it, 1);
      if next.None? {
        return None;
      }
      it := next.value;
    }
  }

  lemma CrlfStarts(s: seq<Byte>, lo: nat, hi: nat)
    requires hi <= |s| && forall q :: lo <= q < hi ==> s[q] !in {CR, LF}
    ensures forall q :: lo <= q < hi ==> !StartsEol(s, Crlf, q)
  {
    forall q | lo <= q < hi
      ensures !StartsEol(s, Crlf, q)
    {
      assert s[q + 0] != [CR, LF][0];
    }
  }

  /** evbuffer_search_eol */
  method SearchEol(cs: seq<Chunk>, total: nat, start: Ptr, style: EolStyle) returns (r: Option<Eol>)
    requires ValidPtr(cs, start) && total == |Flat(cs)|
    ensures FirstEol(Flat(cs), style, start.pos, r)
    ensures r.Some? ==> ValidPtr(cs, r.value.at)
  {
    hide Flat, Data;
    match style {
      case Any =>
        var it := ScanFor(cs, start, {CR, LF});
        if it.None? {
          return None;
        }
        var extra := Strspn(cs, it.value, {CR, LF});
        r := Some(Eol(it.value, extra));
      case CrlfStrict =>
        var it := Search(cs, total, [CR, LF], start, None);
        r := if it.None? then None else Some(Eol(it.value, 2));
      case Crlf =>
        r := SearchCrlf(cs, total, start);
      case Lf =>
        var it := ScanFor(cs, start, {LF});
        r := if it.None? then None else Some(Eol(it.value, 1));
    }
  }

  /** evbuffer_readln: the line, without its end, and the end, leave the buffer. */
  method Readln(buf: Evbuffer, style: EolStyle) returns (line: Option<seq<Byte>>, ghost eol: Option<Eol>)
    requires buf.Valid()
    modifies buf`chains, buf`last, buf`lastWithDatap, buf`totalLen
    ensures buf.Valid() && (old(buf.Compact()) ==> buf.Compact())
    ensures old(DataFirst(buf.chains)) ==> DataFirst(buf.chains)
    ensures buf.freezeStart ==> line.None? && buf.Contents() == old(buf.Contents())
    ensures !buf.freezeStart ==> FirstEol(old(buf.Contents()), style, 0, eol) && (line.Some? <==> eol.Some?)
    ensures line.None? ==> buf.Contents() == old(buf.Contents())
    ensures !buf.freezeStart && line.Some? ==>
              var p, s := eol.value.at.pos, old(buf.Contents());
              p + eol.value.len <= |s| && line.value == s[..p] && buf.Contents() == s[p + eol.value.len..]
  {
    hide Flat, Before, DataFirst, CompactList, IsLastWithData;
    eol, line := None, None;
    if buf.freezeStart {
      return;
    }
    BeforeEnds(buf.chains);
    var r := SearchEol(buf.chains, buf.totalLen, Ptr(0, 0, 0), style);
    eol := r;
    if r.None? {
      return;
    }
    ghost var s := buf.Contents();
    StartsEolMeans(s, style, r.value.at.pos, r.value.len);
    var n, out := buf.Remove(r.value.at.pos);
    var _ := buf.Drain(r.value.len);
    assert s[r.value.at.pos..][r.value.len..] == s[r.value.at.pos + r.value.len..];
    line := Some(out);
  }

  // ---- Lines of a byte string ----

  // How many bytes from p on are CR or LF
  function RunLength(s: seq<Byte>, p: nat): (n: nat)
    requires p <= |s|
    ensures IsRun(s, {CR, LF}, p, n)
    decreases |s| - p
  {
    if p < |s| && s[p] in {CR, LF} then 1 + RunLength(s, p + 1) else 0
  }

  // The length of the line end at p, zero if there is none
  function EolLength(s: seq<Byte>, style: EolStyle, p: nat): (n: nat)
    requires p < |s|
    ensures n > 0 <==> StartsEol(s, style, p)
    ensures n > 0 ==> EolAt(s, style, p, n) && p + n <= |s|
  {
    var crlf := p + 1 < |s| && s[p] == CR && s[p + 1] == LF;
    assert IsMatch(s, [CR, LF], p) <==> crlf by {
      assert [CR, LF][0] == CR && [CR, LF][1] == LF;
      assert crlf ==> forall k :: 0 <= k < 2 ==> s[p + k] == [CR, LF][k];
      assert IsMatch(s, [CR, LF], p) ==> s[p + 0] == CR && s[p + 1] == LF;
    }
    match style
    case Any => RunLength(s, p)
    case Crlf => if s[p] == LF then 1 else if crlf then 2 else 0
    case CrlfStrict => if crlf then 2 else 0
    case Lf => if s[p] == LF then 1 else 0
  }

  // Where the first line ends and how long its end is
  function LineEnd(s: seq<Byte>, style: EolStyle, p: nat): (r: Option<(nat, nat)>)
    requires p <= |s|
    ensures r.Some? ==> r.value.0 + r.value.1 <= |s|
    decreases |s| - p
  {
    if p == |s| then None
    else
      var n := EolLength(s, style, p);
      if n > 0 then Some((p, n)) else LineEnd(s, style, p + 1)
  }

  lemma EolUnique(s: seq<Byte>, style: EolStyle, p: nat, m: nat, n: nat)
    requires EolAt(s, style, p, m) && EolAt(s, style, p, n)
    ensures m == n
  {
    if style.Any? {
      assert p + m < |s| ==> s[p + m] !in {CR, LF};
      assert p + n < |s| ==> s[p + n] !in {CR, LF};
    } else if style.Crlf? {
      assert IsMatch(s, [CR, LF], p) ==> s[p + 0] == [CR, LF][0] == CR;
    }
  }

  /** The line end found in the chunks is the one of the byte string. */
  lemma {:induction false} LineEndIs(s: seq<Byte>, style: EolStyle, p: nat, r: Option<Eol>)
    requires p <= |s| && FirstEol(s, style, p, r)
    ensures LineEnd(s, style, p) == if r.None? then None else Some((r.value.at.pos, r.value.len))
    decreases |s| - p
  {
    hide IsRun, IsMatch, EolLength;
    if p < |s| {
      var n := EolLength(s, style, p);
      if r.Some? {
        StartsEolMeans(s, style, r.value.at.pos, r.value.len);
      }
      if n > 0 {
        EolUnique(s, style, p, n, r.value.len);
      } else {
        LineEndIs(s, style, p + 1, r);
      }
    }
  }

  // "a", CR, "b", CR, LF, LF: where its first line ends in each of the four styles
  lemma FourStyles()
    ensures var s := [97, 13, 98, 13, 10, 10];
      && LineEnd(s, Any, 0) == Some((1, 1)) && LineEnd(s, Crlf, 0) == Some((3, 2))
      && LineEnd(s, CrlfStrict, 0) == Some((3, 2)) && LineEnd(s, Lf, 0) == Some((4, 1))
      && LineEnd(s, Any, 3) == Some((3, 3))
  {
    var s: seq<Byte> := [97, 13, 98, 13, 10, 10];
    assert RunLength(s, 2) == 0 && RunLength(s, 6) == 0;
    assert RunLength(s, 1) == 1 && RunLength(s, 3) == 3;
    hide RunLength;
    forall style ensures LineEnd(s, style, 2) == LineEnd(s, style, 3) {
      assert EolLength(s, style, 2) == 0;
    }
    assert LineEnd(s, Crlf, 3) == LineEnd(s, CrlfStrict, 3) == Some((3, 2));
    assert LineEnd(s, Lf, 3) == LineEnd(s, Lf, 4) == Some((4, 1));
  }
}
