/**
 DNS names in a packet (sections 3.1 and 4.1.4 of RFC 1035): parsing a name that may jump
 through compression pointers, and what it means for bytes to spell a name.
 */
module DnsNames {
  import opened Chunks
  import opened Wrappers

  datatype Parsed = Parsed(name: seq<Byte>, idx: nat)

  type Label = seq<Byte>

  const DOT: Byte := 46

  // The offset in a compression pointer
  function Pointer(hi: int, lo: int): (r: nat)
    requires 0 <= hi && 0 <= lo
    ensures 192 <= hi < 256 ==> r == (hi - 192) * 256 + lo
  {
    hi % 64 * 256 + lo
  }

  /** name_parse, from packet offset j on, with the jumps made, the offset after the name if a
      jump fixed it, and the name so far. None stands for -1. A label that runs past the end of
      the packet fails here; in the source it is copied first (CopiesBehind), and fails at the
      next length byte. Every packet is dealt with: there are at most |p| jumps, and between
      jumps j grows. */
  function ParseFrom(p: seq<Byte>, j: nat, jumps: nat, end: Option<nat>, out: seq<Byte>, cap: nat): (r: Option<Parsed>)
    requires jumps <= |p|
    ensures r.Some? ==> |r.value.name| < cap && (end.Some? ==> r.value.idx == end.value)
    ensures r.Some? ==> out <= r.value.name
    decreases |p| - jumps, |p| - j
  {
    if j >= |p| then None
    else if p[j] == 0 then
      if |out| >= cap then None else Some(Parsed(out, if end.Some? then end.value else j + 1))
    else if p[j] >= 64 then
      if j + 1 >= |p| then None
      else
        var target := Pointer(p[j], p[j + 1]);
        if target >= |p| || jumps + 1 > |p| then None
        else ParseFrom(p, target, jumps + 1, if end.Some? then end else Some(j + 2), out, cap)
    else if out != [] && |out| + 1 >= cap then None
    else
      var sep := if out != [] then out + [DOT] else out;
      if |sep| + p[j] >= cap || j + 1 + p[j] > |p| then None
      else ParseFrom(p, j + 1 + p[j], jumps, end, sep + p[j + 1..j + 1 + p[j]], cap)
  }

  function NameParse(p: seq<Byte>, idx: nat, cap: nat): (r: Option<Parsed>) {
    ParseFrom(p, idx, 0, None, [], cap)
  }

  // The name gets to a label for which there is room in the buffer, but that is not all in the packet: bytes
  // from behind the packet are copied. `n` is the length of the name so far.
  predicate CopiesBehind(p: seq<Byte>, j: nat, jumps: nat, n: nat, cap: nat)
    requires jumps <= |p|
    decreases |p| - jumps, |p| - j
  {
    if j >= |p| || p[j] == 0 then false
    else if p[j] >= 64 then
      && j + 1 < |p| && Pointer(p[j], p[j + 1]) < |p| && jumps < |p|
      && CopiesBehind(p, Pointer(p[j], p[j + 1]), jumps + 1, n, cap)
    else
      var sep := if n > 0 then n + 1 else 0;
      && (n > 0 ==> sep < cap) && sep + p[j] < cap
      && (j + 1 + p[j] > |p| || CopiesBehind(p, j + 1 + p[j], jumps, sep + p[j], cap))
  }

  /** A name for which bytes from behind the packet are copied is refused all the same. */
  lemma {:induction false} BehindIsRefused(p: seq<Byte>, j: nat, jumps: nat, end: Option<nat>, out: seq<Byte>, cap: nat)
    requires jumps <= |p| && CopiesBehind(p, j, jumps, |out|, cap)
    ensures ParseFrom(p, j, jumps, end, out, cap).None?
    decreases |p| - jumps, |p| - j
  {
    if p[j] >= 64 {
      BehindIsRefused(p, Pointer(p[j], p[j + 1]), jumps + 1, if end.Some? then end else Some(j + 2), out, cap);
    } else {
      var sep := if out != [] then out + [DOT] else out;
      if j + 1 + p[j] <= |p| {
        BehindIsRefused(p, j + 1 + p[j], jumps, end, sep + p[j + 1..j + 1 + p[j]], cap);
      }
    }
  }

  // A label of five bytes of which the packet has one
  lemma CanCopyBehind()
    ensures CopiesBehind([5, 97], 0, 0, 0, 256)
  {
  }

  lemma ParsePointer(p: seq<Byte>, j: nat, jumps: nat, end: Option<nat>, out: seq<Byte>, cap: nat)
    requires jumps <= |p| && j + 1 < |p| && p[j] >= 64 && Pointer(p[j], p[j + 1]) < |p| && jumps < |p|
    ensures var target := Pointer(p[j], p[j + 1]);
      && ParseFrom(p, j, jumps, end, out, cap) ==
           ParseFrom(p, target, jumps + 1, if end.Some? then end else Some(j + 2), out, cap)
      && CopiesBehind(p, j, jumps, |out|, cap) == CopiesBehind(p, target, jumps + 1, |out|, cap)
  {
  }

  lemma ParseText(p: seq<Byte>, j: nat, jumps: nat, end: Option<nat>, out: seq<Byte>, cap: nat)
    requires jumps <= |p| && j < |p| && 0 < p[j] < 64 && j + 1 + p[j] <= |p|
    requires var sep := if out != [] then out + [DOT] else out; (out != [] ==> |sep| < cap) && |sep| + p[j] < cap
    ensures var sep := if out != [] then out + [DOT] else out;
      && ParseFrom(p, j, jumps, end, out, cap) ==
           ParseFrom(p, j + 1 + p[j], jumps, end, sep + p[j + 1..j + 1 + p[j]], cap)
      && CopiesBehind(p, j, jumps, |out|, cap) == CopiesBehind(p, j + 1 + p[j], jumps, |sep| + p[j], cap)
  {
  }

  // What stops the loop
  lemma ParseStops(p: seq<Byte>, j: nat, jumps: nat, end: Option<nat>, out: seq<Byte>, cap: nat)
    requires jumps <= |p|
    ensures var r, sep := ParseFrom(p, j, jumps, end, out, cap), if out != [] then out + [DOT] else out;
      if j >= |p| then r.None? && !CopiesBehind(p, j, jumps, |out|, cap)
      else if p[j] == 0 then
        && !CopiesBehind(p, j, jumps, |out|, cap)
        && r == if |out| >= cap then None else Some(Parsed(out, if end.Some? then end.value else j + 1))
      else if p[j] >= 64 then
        j + 1 >= |p| || Pointer(p[j], p[j + 1]) >= |p| || jumps >= |p| ==>
          r.None? && !CopiesBehind(p, j, jumps, |out|, cap)
      else
        && ((out != [] && |sep| >= cap) || |sep| + p[j] >= cap ==> r.None? && !CopiesBehind(p, j, jumps, |out|, cap))
        && (!((out != [] && |sep| >= cap) || |sep| + p[j] >= cap) && j + 1 + p[j] > |p| ==>
              r.None? && CopiesBehind(p, j, jumps, |out|, cap))
  {
  }

  // "c.b" behind "a.b", with a pointer to its last label
  lemma PointerOnTheWire()
    ensures NameParse([1, 97, 1, 98, 0, 1, 99, 0xC0, 2], 5, 256) == Some(Parsed([99, 46, 98], 9))
  {
    hide ParseFrom, CopiesBehind;
    var p: seq<Byte> := [1, 97, 1, 98, 0, 1, 99, 0xC0, 2];
    assert p[6..7] == [99] && [] + p[6..7] == [99];
    ParseText(p, 5, 0, None, [], 256);
    ParsePointer(p, 7, 0, None, [99], 256);
    assert p[3..4] == [98] && [99] + [DOT] + p[3..4] == [99, 46, 98];
    ParseText(p, 2, 1, Some(9), [99], 256);
    ParseStops(p, 4, 1, Some(9), [99, 46, 98], 256);
  }

  /** The loop of name_parse; `behind` says that bytes from behind the packet were copied. */
  method NameParseLoop(packet: seq<Byte>, idx: nat, cap: nat) returns (r: Option<Parsed>, behind: bool)
    ensures r == NameParse(packet, idx, cap) && behind == CopiesBehind(packet, idx, 0, 0, cap)
  {
    hide ParseFrom, CopiesBehind, Pointer;
    var nameEnd: Option<nat>, j: nat, ptrCount: nat, out := None, idx, 0, [];
    behind := false;
    while true
      invariant ptrCount <= |packet| && !behind
      invariant CopiesBehind(packet, idx, 0, 0, cap) == CopiesBehind(packet, j, ptrCount, |out|, cap)
      invariant NameParse(packet, idx, cap) == ParseFrom(packet, j, ptrCount, nameEnd, out, cap)
      decreases |packet| - ptrCount, |packet| - j
    {
      ParseStops(packet, j, ptrCount, nameEnd, out, cap);
      if j >= |packet| {
        return None, false;
      }
      var labelLen := packet[j];
      ghost var at, was, end := j, out, nameEnd;
      j := j + 1;
      if labelLen == 0 {
        break;
      }
      if labelLen >= 64 {
        if j >= |packet| {
          return None, false;
        }
        var low := packet[j];
        j := j + 1;
        if nameEnd.None? {
          nameEnd := Some(j);
        }
        j := Pointer(labelLen, low);
        if j >= |packet| || ptrCount + 1 > |packet| {
          return None, false;
        }
        ParsePointer(packet, at, ptrCount, end, out, cap);
        ptrCount := ptrCount + 1;
        continue;
      }
      if out != [] {
        if |out| + 1 >= cap {
          return None, false;
        }
        out := out + [DOT];
      }
      if |out| + labelLen >= cap {
        return None, false;
      }
      if j + labelLen > |packet| {
        return None, true;
      }
      ParseText(packet, at, ptrCount, nameEnd, was, cap);
      out := out + packet[j..j + labelLen];
      j := j + labelLen;
    }
    if |out| >= cap {
      return None, false;
    }
    r := Some(Parsed(out, if nameEnd.Some? then nameEnd.value else j));
  }

  // ---- What bytes spell a name ----

  // A two-byte field at g is filled in after the bytes behind it are written.
  predicate Apart(lo: nat, hi: nat, g: nat) {
    hi <= g || g + 2 <= lo
  }

  /** The bytes at pos, apart from the field at g, spell the labels ls, by way of k pointers. */
  ghost predicate Spells(p: seq<Byte>, pos: nat, ls: seq<Label>, k: nat, g: nat)
    decreases k, |p| - pos
  {
    && pos < |p| && Apart(pos, pos + 1, g)
    && if p[pos] == 0 then ls == [] && k == 0
       else if p[pos] >= 64 then
         && k > 0 && pos + 2 <= |p| && Apart(pos, pos + 2, g) && Pointer(p[pos], p[pos + 1]) < |p|
         && Spells(p, Pointer(p[pos], p[pos + 1]), ls, k - 1, g)
       else
         var n := pos + 1 + p[pos];
         && ls != [] && n <= |p| && Apart(pos, n, g) && p[pos + 1..n] == ls[0]
         && Spells(p, n, ls[1..], k, g)
  }

  // The name at pos, up to its terminator or first pointer, takes the bytes before e.
  ghost predicate Ends(p: seq<Byte>, pos: nat, e: nat, g: nat)
    decreases |p| - pos
  {
    && pos < |p| && Apart(pos, pos + 1, g)
    && if p[pos] == 0 then e == pos + 1
       else if p[pos] >= 64 then e == pos + 2
       else pos + 1 + p[pos] <= |p| && Ends(p, pos + 1 + p[pos], e, g)
  }

  // Later bytes are appended, and the field at g may be filled in.
  ghost predicate Continues(p: seq<Byte>, g: nat, p': seq<Byte>, g': nat) {
    && |p| <= |p'| && (g' == g || g' >= |p|)
    && forall i :: 0 <= i < |p| && Apart(i, i + 1, g) ==> p'[i] == p[i]
  }

  /** Later writes never change what is spelled. */
  lemma {:induction false} StillSpells(p: seq<Byte>, g: nat, p': seq<Byte>, g': nat, pos: nat, ls: seq<Label>, k: nat)
    requires Continues(p, g, p', g') && Spells(p, pos, ls, k, g)
    ensures Spells(p', pos, ls, k, g')
    decreases k, |p| - pos
  {
    assert p'[pos] == p[pos];
    if p[pos] == 0 {
    } else if p[pos] >= 64 {
      assert p'[pos + 1] == p[pos + 1];
      StillSpells(p, g, p', g', Pointer(p[pos], p[pos + 1]), ls, k - 1);
    } else {
      var n := pos + 1 + p[pos];
      assert p'[pos + 1..n] == p[pos + 1..n];
      StillSpells(p, g, p', g', n, ls[1..], k);
    }
  }

  lemma {:induction false} StillEnds(p: seq<Byte>, g: nat, p': seq<Byte>, g': nat, pos: nat, e: nat)
    requires Continues(p, g, p', g') && Ends(p, pos, e, g)
    ensures Ends(p', pos, e, g')
    decreases |p| - pos
  {
    assert p'[pos] == p[pos];
    if 0 < p[pos] < 64 {
      StillEnds(p, g, p', g', pos + 1 + p[pos], e);
    }
  }

  // The labels added to a name, with dots between
  function AddLabels(out: seq<Byte>, ls: seq<Label>): (r: seq<Byte>)
    ensures |r| >= |out|
    decreases ls
  {
    if ls == [] then out
    else AddLabels((if out != [] then out + [DOT] else out) + ls[0], ls[1..])
  }

  /** Bytes that spell a name are parsed as that name, from any state of the parse that leaves
      enough jumps and room. */
  lemma {:induction false} SpelledIsParsed(p: seq<Byte>, pos: nat, ls: seq<Label>, k: nat, e: nat, g: nat, jumps: nat,
                                           end: Option<nat>, out: seq<Byte>, cap: nat)
    requires Spells(p, pos, ls, k, g) && (end.None? ==> Ends(p, pos, e, g))
    requires jumps + k <= |p| && |AddLabels(out, ls)| < cap
    ensures ParseFrom(p, pos, jumps, end, out, cap) ==
              Some(Parsed(AddLabels(out, ls), if end.Some? then end.value else e))
    decreases k, |p| - pos
  {
    if p[pos] == 0 {
    } else if p[pos] >= 64 {
      SpelledIsParsed(p, Pointer(p[pos], p[pos + 1]), ls, k - 1, e, g, jumps + 1,
                      if end.Some? then end else Some(pos + 2), out, cap);
    } else {
      var n := pos + 1 + p[pos];
      var sep := if out != [] then out + [DOT] else out;
      assert |ls[0]| == p[pos];
      SpelledIsParsed(p, n, ls[1..], k, e, g, jumps, end, sep + ls[0], cap);
    }
  }
}
