/**
 Writing names into a DNS response with a shared compression table, and parsing every one of
 them back.
 */
module DnsWriter {
  import opened Chunks
  import opened DnsNames
  import opened Wrappers

  const MAX_LABELS := 128
  const MAX_NAME := 255

  // strchr(name, '.')
  function FirstDot(name: seq<Byte>): (r: Option<nat>)
    ensures r.None? ==> DOT !in name
    ensures r.Some? ==> r.value < |name| && name[r.value] == DOT && DOT !in name[..r.value]
  {
    if name == [] then None
    else if name[0] == DOT then Some(0)
    else
      var t := FirstDot(name[1..]);
      assert t.Some? ==> name[..t.value + 1] == [name[0]] + name[1..][..t.value];
      if t.None? then None else Some(t.value + 1)
  }

  // The labels of a name; the empty one after a trailing dot is the root.
  function Labels(name: seq<Byte>): seq<Label>
    decreases |name|
  {
    var dot := FirstDot(name);
    if dot.None? then if name == [] then [] else [name]
    else [name[..dot.value]] + Labels(name[dot.value + 1..])
  }

  // No empty label before a dot
  predicate WellFormed(name: seq<Byte>)
    decreases |name|
  {
    var dot := FirstDot(name);
    dot.Some? ==> dot.value > 0 && WellFormed(name[dot.value + 1..])
  }

  // The name without a trailing dot
  function Canonical(name: seq<Byte>): seq<Byte> {
    if name != [] && name[|name| - 1] == DOT then name[..|name| - 1] else name
  }

  lemma CanonicalAt(name: seq<Byte>, dot: nat)
    requires dot < |name| && name[dot] == DOT
    ensures var rest := name[dot + 1..];
      Canonical(name) == if rest == [] then name[..dot] else name[..dot] + [DOT] + Canonical(rest)
  {
    var rest := name[dot + 1..];
    if rest != [] {
      assert rest[|rest| - 1] == name[|name| - 1];
      assert name == name[..dot] + [DOT] + rest;
    }
  }

  // The labels of a name, joined by dots, are the name again.
  lemma {:induction false} LabelsJoin(out: seq<Byte>, name: seq<Byte>)
    requires WellFormed(name)
    ensures AddLabels(out, Labels(name)) ==
            if name == [] then out else (if out != [] then out + [DOT] else out) + Canonical(name)
    decreases |name|
  {
    var dot := FirstDot(name);
    var sep := if out != [] then out + [DOT] else out;
    if dot.None? {
      assert [name][1..] == [];
    } else {
      var first, rest := name[..dot.value], name[dot.value + 1..];
      var ls := [first] + Labels(rest);
      assert ls[1..] == Labels(rest);
      CanonicalAt(name, dot.value);
      LabelsJoin(sep + first, rest);
      hide Canonical, Labels, WellFormed, FirstDot;
      AddAssoc(sep, first, [DOT]);
      AddAssoc(sep, first + [DOT], Canonical(rest));
    }
  }

  // Labels that fit in a length byte and are not the root
  predicate Plain(ls: seq<Label>) {
    forall i :: 0 <= i < |ls| ==> 0 < |ls[i]| <= 63
  }

  function Encoded(ls: seq<Label>): seq<Byte>
    requires Plain(ls)
  {
    if ls == [] then [] else [|ls[0]|] + ls[0] + Encoded(ls[1..])
  }

  lemma {:induction false} EncodedAppend(ls: seq<Label>, l: Label)
    requires Plain(ls) && 0 < |l| <= 63
    ensures Plain(ls + [l]) && Encoded(ls + [l]) == Encoded(ls) + [|l|] + l
  {
    if ls == [] {
      assert ls + [l] == [l] && [l][1..] == [];
    } else {
      EncodedAppend(ls[1..], l);
      assert (ls + [l])[1..] == ls[1..] + [l];
      var head, tail := [|ls[0]|] + ls[0], Encoded(ls[1..]);
      AddAssoc(head, tail, [|l|]);
      AddAssoc(head, tail + [|l|], l);
    }
  }

  lemma {:induction false} EncodedSplit(ls: seq<Label>, m: nat)
    requires Plain(ls) && m <= |ls|
    ensures Encoded(ls) == Encoded(ls[..m]) + Encoded(ls[m..])
  {
    if m == 0 {
      assert ls[m..] == ls;
    } else {
      var rest := ls[1..];
      EncodedSplit(rest, m - 1);
      assert rest[..m - 1] == ls[..m][1..] && rest[m - 1..] == ls[m..];
      var head := [|ls[0]|] + ls[0];
      assert Encoded(ls) == head + Encoded(rest) && Encoded(ls[..m]) == head + Encoded(rest[..m - 1]);
      hide Encoded;
      AddAssoc(head, Encoded(rest[..m - 1]), Encoded(rest[m - 1..]));
    }
  }

  // A label, length byte first
  function OneLabel(l: Label): seq<Byte>
    requires 0 < |l| <= 63
  {
    [|l|] + l
  }

  lemma SpellsMore(p: seq<Byte>, pos: nat, l: Label, ls: seq<Label>, k: nat, g: nat)
    requires 0 < |l| <= 63 && Holds(p, pos, OneLabel(l))
    requires Apart(pos, pos + 1 + |l|, g) && Spells(p, pos + 1 + |l|, ls, k, g)
    ensures Spells(p, pos, [l] + ls, k, g)
  {
    HoldsParts(p, pos, [|l|], l);
    assert p[pos] == p[pos..pos + 1][0];
    assert ([l] + ls)[1..] == ls;
  }

  lemma EndsMore(p: seq<Byte>, pos: nat, l: Label, e: nat, g: nat)
    requires 0 < |l| <= 63 && Holds(p, pos, OneLabel(l))
    requires Apart(pos, pos + 1 + |l|, g) && Ends(p, pos + 1 + |l|, e, g)
    ensures Ends(p, pos, e, g)
  {
    HoldsParts(p, pos, [|l|], l);
    assert p[pos] == p[pos..pos + 1][0];
  }

  lemma ConsAssoc(ls: seq<Label>, more: seq<Label>)
    requires ls != []
    ensures [ls[0]] + (ls[1..] + more) == ls + more
  {
  }

  // Encoded labels in front of something that spells more labels
  lemma {:induction false} EncodedSpells(p: seq<Byte>, start: nat, ls: seq<Label>, more: seq<Label>, k: nat, g: nat)
    requires Plain(ls) && Holds(p, start, Encoded(ls)) && Apart(start, start + |Encoded(ls)|, g)
    requires Spells(p, start + |Encoded(ls)|, more, k, g)
    ensures Spells(p, start, ls + more, k, g)
    decreases |ls|
  {
    if ls == [] {
      assert ls + more == more;
    } else {
      var l, rest := ls[0], ls[1..];
      assert Encoded(ls) == OneLabel(l) + Encoded(rest);
      hide Spells, Holds, Encoded;
      HoldsParts(p, start, OneLabel(l), Encoded(rest));
      EncodedSpells(p, start + 1 + |l|, rest, more, k, g);
      SpellsMore(p, start, l, rest + more, k, g);
      ConsAssoc(ls, more);
    }
  }

  lemma {:induction false} EncodedEnds(p: seq<Byte>, start: nat, ls: seq<Label>, e: nat, g: nat)
    requires Plain(ls) && Holds(p, start, Encoded(ls)) && Apart(start, start + |Encoded(ls)|, g)
    requires Ends(p, start + |Encoded(ls)|, e, g)
    ensures Ends(p, start, e, g)
    decreases |ls|
  {
    if ls != [] {
      var l, rest := ls[0], ls[1..];
      assert Encoded(ls) == OneLabel(l) + Encoded(rest);
      hide Ends, Holds, Encoded;
      HoldsParts(p, start, OneLabel(l), Encoded(rest));
      EncodedEnds(p, start + 1 + |l|, rest, e, g);
      EndsMore(p, start, l, e, g);
    }
  }

  // ---- The table and the names written so far ----

  datatype Entry = Entry(v: seq<Byte>, pos: nat)
  datatype Written = Written(name: seq<Byte>, pos: nat, end: nat, hops: nat)

  // The position of an entry spells its suffix, if it has no empty labels. Every pointer takes two bytes, so there are
  // no more jumps than half the bytes.
  ghost predicate EntryOk(buf: seq<Byte>, g: nat, e: Entry, hops: nat) {
    e.pos < 0x4000 && 2 * hops <= |buf| && (WellFormed(e.v) ==> Spells(buf, e.pos, Labels(e.v), hops, g))
  }

  ghost predicate TableOk(buf: seq<Byte>, g: nat, table: seq<Entry>, hops: seq<nat>) {
    |hops| == |table| <= MAX_LABELS && forall i :: 0 <= i < |table| ==> EntryOk(buf, g, table[i], hops[i])
  }

  ghost predicate WrittenOk(buf: seq<Byte>, g: nat, w: Written) {
    && 2 * w.hops <= |buf| && Spells(buf, w.pos, Labels(w.name), w.hops, g) && Ends(buf, w.pos, w.end, g)
    && WellFormed(w.name) && |w.name| <= MAX_NAME
  }

  ghost predicate LogOk(buf: seq<Byte>, g: nat, log: seq<Written>) {
    forall i :: 0 <= i < |log| ==> WrittenOk(buf, g, log[i])
  }

  lemma TableContinues(buf: seq<Byte>, g: nat, buf': seq<Byte>, g': nat, table: seq<Entry>, hops: seq<nat>)
    requires Continues(buf, g, buf', g') && TableOk(buf, g, table, hops)
    ensures TableOk(buf', g', table, hops)
  {
    hide Spells, Continues, Labels, WellFormed;
    forall i | 0 <= i < |table|
      ensures EntryOk(buf', g', table[i], hops[i])
    {
      assert EntryOk(buf, g, table[i], hops[i]);
      if WellFormed(table[i].v) {
        StillSpells(buf, g, buf', g', table[i].pos, Labels(table[i].v), hops[i]);
      }
      ContinuesLonger(buf, g, buf', g');
    }
  }

  lemma ContinuesLonger(buf: seq<Byte>, g: nat, buf': seq<Byte>, g': nat)
    requires Continues(buf, g, buf', g')
    ensures |buf| <= |buf'|
  {
  }

  lemma LogContinues(buf: seq<Byte>, g: nat, buf': seq<Byte>, g': nat, log: seq<Written>)
    requires Continues(buf, g, buf', g') && LogOk(buf, g, log)
    ensures LogOk(buf', g', log)
  {
    hide Spells, Ends, Continues, Labels, WellFormed;
    forall i | 0 <= i < |log|
      ensures WrittenOk(buf', g', log[i])
    {
      var w := log[i];
      assert WrittenOk(buf, g, w);
      StillSpells(buf, g, buf', g', w.pos, Labels(w.name), w.hops);
      StillEnds(buf, g, buf', g', w.pos, w.end);
      ContinuesLonger(buf, g, buf', g');
    }
  }

  /** A name that was written is parsed back, whatever has been written since. */
  lemma WrittenParses(buf: seq<Byte>, g: nat, w: Written)
    requires WrittenOk(buf, g, w)
    ensures NameParse(buf, w.pos, MAX_NAME + 1) == Some(Parsed(Canonical(w.name), w.end))
  {
    LabelsJoin([], w.name);
    assert AddLabels([], Labels(w.name)) == Canonical(w.name);
    SpelledIsParsed(buf, w.pos, Labels(w.name), w.hops, w.end, g, 0, None, [], MAX_NAME + 1);
  }

  // ---- A name in the middle of being written ----

  // From `start` on the labels ls have been written; `rest` of the name is to come. The entries
  // added for this name are at the labels `marks`.
  ghost predicate Pending(buf: seq<Byte>, start: nat, ls: seq<Label>, rest: seq<Byte>, entries: seq<Entry>,
                          marks: seq<nat>) {
    && Plain(ls) && Holds(buf, start, Encoded(ls)) && start + |Encoded(ls)| == |buf|
    && |marks| == |entries|
    && forall i :: 0 <= i < |marks| ==> MarkOk(start, ls, rest, entries[i], marks[i])
  }

  ghost predicate MarkOk(start: nat, ls: seq<Label>, rest: seq<Byte>, e: Entry, m: nat)
    requires Plain(ls)
  {
    && m <= |ls| && e.pos == start + |Encoded(ls[..m])| && e.pos < 0x4000
    && Labels(e.v) == ls[m..] + Labels(rest)
  }

  lemma MarkNext(start: nat, ls: seq<Label>, rest: seq<Byte>, l: Label, rest': seq<Byte>, e: Entry, m: nat)
    requires Plain(ls) && 0 < |l| <= 63 && Plain(ls + [l]) && Labels(rest) == [l] + Labels(rest')
    requires MarkOk(start, ls, rest, e, m)
    ensures MarkOk(start, ls + [l], rest', e, m)
  {
    hide Labels, Encoded;
    assert (ls + [l])[..m] == ls[..m];
    assert (ls + [l])[m..] + Labels(rest') == ls[m..] + ([l] + Labels(rest'));
  }

  // An entry for what is left of the name, at the place where it will be written
  lemma PendingEntry(buf: seq<Byte>, start: nat, ls: seq<Label>, rest: seq<Byte>, entries: seq<Entry>, marks: seq<nat>)
    requires Pending(buf, start, ls, rest, entries, marks) && |buf| < 0x4000
    ensures Pending(buf, start, ls, rest, entries + [Entry(rest, |buf|)], marks + [|ls|])
  {
    hide Encoded, Labels;
    assert ls[..|ls|] == ls && ls[|ls|..] + Labels(rest) == Labels(rest);
  }

  // One more label written
  lemma PendingNext(buf: seq<Byte>, start: nat, ls: seq<Label>, rest: seq<Byte>, entries: seq<Entry>, marks: seq<nat>,
                    l: Label, rest': seq<Byte>)
    requires Pending(buf, start, ls, rest, entries, marks) && 0 < |l| <= 63
    requires Labels(rest) == [l] + Labels(rest')
    ensures Pending(buf + OneLabel(l), start, ls + [l], rest', entries, marks)
  {
    EncodedAppend(ls, l);
    var buf' := buf + OneLabel(l);
    hide Labels, Encoded;
    assert Holds(buf', start, Encoded(ls + [l])) by {
      AddAssoc(Encoded(ls), [|l|], l);
      assert buf'[start..] == buf[start..] + OneLabel(l);
      assert buf[start..] == Encoded(ls);
    }
    forall i | 0 <= i < |marks|
      ensures MarkOk(start, ls + [l], rest', entries[i], marks[i])
    {
      MarkNext(start, ls, rest, l, rest', entries[i], marks[i]);
    }
  }

  // The rest of the name is spelled behind what has been written: so is the whole name, and
  // every suffix with an entry.
  lemma PendingDone(buf: seq<Byte>, start: nat, ls: seq<Label>, rest: seq<Byte>, entries: seq<Entry>, marks: seq<nat>,
                    buf': seq<Byte>, k: nat, e: nat, g: nat)
    requires Pending(buf, start, ls, rest, entries, marks) && buf <= buf' && Apart(start, |buf|, g)
    requires Spells(buf', |buf|, Labels(rest), k, g) && Ends(buf', |buf|, e, g) && 2 * k <= |buf'|
    ensures forall i :: 0 <= i < |entries| ==> EntryOk(buf', g, entries[i], k)
    ensures Spells(buf', start, ls + Labels(rest), k, g) && Ends(buf', start, e, g)
  {
    assert Holds(buf', start, Encoded(ls)) by {
      assert buf'[start..|buf|] == buf[start..|buf|];
    }
    hide Labels, WellFormed, Encoded, Spells, Ends;
    EncodedSpells(buf', start, ls, Labels(rest), k, g);
    EncodedEnds(buf', start, ls, e, g);
    forall i | 0 <= i < |entries|
      ensures EntryOk(buf', g, entries[i], k)
    {
      SuffixSpelled(buf', start, ls, rest, entries[i], marks[i], k, g);
    }
  }

  lemma SuffixSpelled(buf: seq<Byte>, start: nat, ls: seq<Label>, rest: seq<Byte>, e: Entry, m: nat, k: nat, g: nat)
    requires Plain(ls) && MarkOk(start, ls, rest, e, m) && Holds(buf, start, Encoded(ls))
             && Apart(start, start + |Encoded(ls)|, g)
    requires Spells(buf, start + |Encoded(ls)|, Labels(rest), k, g) && 2 * k <= |buf|
    ensures EntryOk(buf, g, e, k)
  {
    hide Labels, WellFormed, Encoded, Spells, Holds;
    EncodedSplit(ls, m);
    HoldsParts(buf, start, Encoded(ls[..m]), Encoded(ls[m..]));
    EncodedSpells(buf, e.pos, ls[m..], Labels(rest), k, g);
  }

  // A pointer to a place that spells the labels
  lemma PointerSpells(buf: seq<Byte>, pos: nat, ls: seq<Label>, k: nat, g: nat, hi: Byte, lo: Byte)
    requires pos < 0x4000 && hi == 192 + pos / 256 && lo == pos % 256 && Apart(|buf|, |buf| + 2, g)
    requires Spells(buf + [hi, lo], pos, ls, k, g)
    ensures Spells(buf + [hi, lo], |buf|, ls, k + 1, g) && Ends(buf + [hi, lo], |buf|, |buf| + 2, g)
  {
    var p := buf + [hi, lo];
    assert p[|buf|] == hi && p[|buf| + 1] == lo;
    assert Pointer(hi, lo) == pos;
  }

  lemma RootSpells(buf: seq<Byte>, g: nat)
    requires Apart(|buf|, |buf| + 1, g)
    ensures Spells(buf + [0], |buf|, [], 0, g) && Ends(buf + [0], |buf|, |buf| + 1, g)
  {
    assert (buf + [0])[|buf|] == 0;
  }

  // The place of the pending field after bytes have been appended; a place at or behind the
  // end means there is none.
  function NextGap(g: nat, len: nat, len': nat): nat {
    if g >= len then len' else g
  }

  class NameWriter {
    var buf: seq<Byte>
    var table: seq<Entry>
    const capacity: nat
    ghost var hops: seq<nat>
    ghost var gap: nat
    ghost var log: seq<Written>

    ghost predicate Valid()
      reads this
    {
      && capacity < 0x4000 && (gap >= |buf| || gap + 2 <= |buf|)
      && TableOk(buf, gap, table, hops) && LogOk(buf, gap, log)
    }

    constructor (cap: nat)
      requires cap < 0x4000
      ensures Valid() && buf == [] && table == [] && log == [] && capacity == cap && gap >= |buf|
    {
      buf, table, capacity, hops, gap, log := [], [], cap, [], 0, [];
    }

    // Appending bytes that are no name: APPEND16, APPEND32 and the data of a record
    method Append(bytes: seq<Byte>) returns (ok: bool)
      requires Valid()
      modifies this`buf, this`gap
      ensures Valid() && ok == (|old(buf)| + |bytes| <= capacity)
      ensures buf == if ok then old(buf) + bytes else old(buf)
      ensures gap == if ok then NextGap(old(gap), |old(buf)|, |buf|) else old(gap)
    {
      hide TableOk, LogOk;
      ok := |buf| + |bytes| <= capacity;
      if ok {
        var buf' := buf + bytes;
        ghost var g' := NextGap(gap, |buf|, |buf'|);
        TableContinues(buf, gap, buf', g', table, hops);
        LogContinues(buf, gap, buf', g', log);
        buf, gap := buf', g';
      }
    }

    // The place of a length that is filled in later
    method Reserve()
      requires Valid() && gap >= |buf|
      modifies this`buf, this`gap
      ensures Valid() && buf == old(buf) + [0, 0] && gap == |old(buf)|
    {
      hide TableOk, LogOk;
      var buf' := buf + [0, 0];
      TableContinues(buf, gap, buf', |buf|, table, hops);
      LogContinues(buf, gap, buf', |buf|, log);
      buf, gap := buf', |buf|;
    }

    method FillIn(at: nat, hi: Byte, lo: Byte)
      requires Valid() && gap == at && at + 2 <= |buf|
      modifies this`buf, this`gap
      ensures Valid() && buf == old(buf)[at := hi][at + 1 := lo] && gap >= |buf|
    {
      hide TableOk, LogOk;
      var buf' := buf[at := hi][at + 1 := lo];
      TableContinues(buf, gap, buf', |buf'|, table, hops);
      LogContinues(buf, gap, buf', |buf'|, log);
      buf, gap := buf', |buf'|;
    }

    // dnslabel_table_get_pos
    method Find(v: seq<Byte>) returns (r: Option<nat>)
      ensures r.None? ==> forall i :: 0 <= i < |table| ==> table[i].v != v
      ensures r.Some? ==> r.value < |table| && table[r.value].v == v
    {
      for i := 0 to |table|
        invariant forall j :: 0 <= j < i ==> table[j].v != v
      {
        if table[i].v == v {
          return Some(i);
        }
      }
      r := None;
    }

    // The end of the name is there: take it into the log, and its suffixes into the table.
    ghost method Complete(d: Draft, partial: seq<Byte>, rest: seq<Byte>, k: nat)
      requires capacity < 0x4000 && Drafted(d, partial, rest, table, hops, gap, log) && partial <= buf
               && WellFormed(rest)
      requires var g := NextGap(gap, |d.before|, |buf|);
                 Spells(buf, |partial|, Labels(rest), k, g) && Ends(buf, |partial|, |buf|, g)
      requires 2 * k <= |buf|
      modifies this`hops, this`gap, this`log
      ensures Valid() && log == old(log) + [Written(d.whole, |d.before|, |buf|, k)]
      ensures gap == NextGap(old(gap), |d.before|, |buf|)
    {
      hide TableOk, LogOk, Pending, Spells, Ends, Labels, WellFormed, Suffixes;
      var g := NextGap(gap, |d.before|, |buf|);
      PendingDone(partial, |d.before|, d.ls, rest, table[d.n..], d.marks, buf, k, |buf|, g);
      TableContinues(d.before, gap, buf, g, table[..d.n], hops);
      LogContinues(d.before, gap, buf, g, log);
      TableJoin(buf, g, table, d.n, hops, k);
      LogJoin(buf, g, log, Written(d.whole, |d.before|, |buf|, k));
      hops := hops + seq(|table| - d.n, _ => k);
      gap := g;
      log := log + [Written(d.whole, |d.before|, |buf|, k)];
    }

    // Nothing is claimed of a name with an empty label, nor of its suffixes with one.
    ghost method Abandon(d: Draft, partial: seq<Byte>, rest: seq<Byte>)
      requires capacity < 0x4000 && Drafted(d, partial, rest, table, hops, gap, log) && partial <= buf
               && !WellFormed(rest)
      modifies this`hops, this`gap
      ensures Valid() && gap == NextGap(old(gap), |d.before|, |buf|)
    {
      hide TableOk, LogOk, Pending, Labels, WellFormed;
      var g := NextGap(gap, |d.before|, |buf|);
      TableContinues(d.before, gap, buf, g, table[..d.n], hops);
      LogContinues(d.before, gap, buf, g, log);
      PendingPlaces(partial, |d.before|, d.ls, rest, table[d.n..], d.marks);
      TableJoin(buf, g, table, d.n, hops, 0);
      hops := hops + seq(|table| - d.n, _ => 0);
      gap := g;
    }

    // A pointer to a suffix that is in the table ends the name.
    method PutPointer(i: nat, rest: seq<Byte>, ghost d: Draft) returns (ghost k: nat)
      requires Drafted(d, buf, rest, table, hops, gap, log) && i < |table| && table[i].v == rest
      requires d.n <= |table| && Longer(table[d.n..], rest)
      requires |buf| + 2 <= capacity < 0x4000
      modifies this`buf, this`hops, this`gap, this`log
      ensures Valid() && |buf| == |old(buf)| + 2 && old(buf) <= buf && gap == NextGap(old(gap), |d.before|, |buf|)
      ensures log == if WellFormed(rest) then old(log) + [Written(d.whole, |d.before|, |buf|, k)] else old(log)
    {
      hide TableOk, LogOk, Labels, WellFormed, Spells, Ends, Pending, Suffixes;
      DraftPlace(d, buf, rest, table, hops, gap, log, i);
      var pos := table[i].pos;
      buf := buf + [192 + pos / 256, pos % 256];
      ghost var g := NextGap(gap, |d.before|, |buf|);
      if WellFormed(rest) {
        k := DraftHops(d, old(buf), rest, table, hops, gap, log, i);
        StillSpells(d.before, gap, buf, g, pos, Labels(rest), k);
        PointerSpells(old(buf), pos, Labels(rest), k, g, 192 + pos / 256, pos % 256);
        k := k + 1;
        Complete(d, old(buf), rest, k);
      } else {
        k := 0;
        Abandon(d, old(buf), rest);
      }
    }

    // dnslabel_table_add; a full table is no error.
    method TableAdd(rest: seq<Byte>, ghost d: Draft) returns (ghost d': Draft)
      requires Drafted(d, buf, rest, table, hops, gap, log) && |buf| < 0x4000
      modifies this`table
      ensures table == if |old(table)| < MAX_LABELS then old(table) + [Entry(rest, |buf|)] else old(table)
      ensures Drafted(d', buf, rest, table, hops, gap, log) && d'.before == d.before && d'.whole == d.whole
              && d'.ls == d.ls
      ensures Values(table) == Remember(Values(old(table)), rest)
    {
      d' := d;
      if |table| < MAX_LABELS {
        DraftEntry(d, buf, rest, table, hops, gap, log);
        d' := d.(marks := d.marks + [|d.ls|]);
        table := table + [Entry(rest, |buf|)];
      }
    }

    // A label and its entry in the table; an empty one starts a new draft for what is left.
    method PutLabel(l: Label, rest: seq<Byte>, rest': seq<Byte>, ghost d: Draft) returns (ghost d': Draft)
      requires Drafted(d, buf, rest, table, hops, gap, log) && |l| <= 63
      requires FirstLabel(rest, l, rest') && |rest| <= MAX_NAME && |buf| + |l| + 1 <= capacity < 0x4000
      modifies this`buf, this`hops, this`gap, this`table
      ensures buf == old(buf) + ([|l|] + l) && Drafted(d', buf, rest', table, hops, gap, log)
      ensures d'.n <= |table| && Longer(table[d'.n..], rest')
      ensures old(table) <= table && Values(table) == Remember(Values(old(table)), rest)
      ensures l != [] ==> d'.before == d.before && d'.whole == d.whole && gap == old(gap)
      ensures l == [] ==> d'.before == buf && gap == NextGap(old(gap), |d.before|, |buf|)
    {
      hide Drafted, TableOk, LogOk, Labels, WellFormed, Pending, Suffixes, Values, Remember;
      d' := TableAdd(rest, d);
      buf := buf + ([|l|] + l);
      if l != [] {
        DraftLabel(d', old(buf), rest, table, hops, gap, log, l, rest');
        d' := d'.(ls := d'.ls + [l]);
      } else {
        Abandon(d', old(buf), rest);
        DraftStart(buf, rest', table, hops, gap, log);
        d' := Draft(buf, rest', [], |table|, []);
      }
    }

    // The last label and the terminator, which is already there after a trailing dot
    method PutLast(rest: seq<Byte>, ghost d: Draft)
      requires Drafted(d, buf, rest, table, hops, gap, log) && |rest| <= 63 && 0 !in rest && FirstDot(rest).None?
      requires |buf| + |rest| + 1 <= capacity < 0x4000
      modifies this
      ensures Valid() && buf == old(buf) + ([|rest|] + rest + if rest == [] then [] else [0])
      ensures gap == NextGap(old(gap), |d.before|, |buf|)
      ensures log == old(log) + [Written(d.whole, |d.before|, |buf|, 0)]
      ensures old(table) <= table && Values(table) == Remember(Values(old(table)), rest)
    {
      hide Drafted, TableOk, LogOk, Labels, WellFormed, Pending, Suffixes, FirstDot, Spells, Ends, FirstLabel, Values,
           Remember;
      LastLabel(rest);
      ghost var d', partial := d, buf;
      if rest != [] {
        d' := PutLabel(rest, rest, [], d);
        partial := buf;
      } else {
        d' := TableAdd(rest, d);
        buf := buf + [0];
      }
      if buf == [] || buf[|buf| - 1] != 0 {
        buf := buf + [0];
      }
      assert buf == partial + [0];
      DraftApart(d', partial, [], table, hops, gap, log);
      RootSpells(partial, NextGap(gap, |d.before|, |buf|));
      Complete(d', partial, [], 0);
    }

    // The loop of dnsname_to_labels
    method WriteLabels(name: seq<Byte>) returns (r: int)
      requires Valid() && 0 !in name
      modifies this
      ensures old(buf) <= buf && (r == -1 || r == -2 || r == |buf|) && (r >= 0 ==> Valid())
      ensures PlaceName(Values(old(table)), |old(buf)|, capacity, name) ==
                if r >= 0 then At(|buf|, Values(table)) else Bad(r)
      ensures r >= 0 ==> old(table) <= table && gap == NextGap(old(gap), |old(buf)|, |buf|) && old(log) <= log
      ensures r >= 0 && WellFormed(name) ==> |log| == |old(log)| + 1
      ensures r >= 0 && WellFormed(name) ==>
                var w := log[|old(log)|]; w.name == name && w.pos == |old(buf)| && w.end == |buf|
    {
      hide Drafted, TableOk, LogOk, Labels, WellFormed, Pending, Suffixes, FirstDot, ShortLabels, PlaceRest, Values,
           Remember;
      if |name| > MAX_NAME {
        return -2;
      }
      ghost var known := Values(table);
      ghost var d := Draft(buf, name, [], |table|, []);
      DraftStart(buf, name, table, hops, gap, log);
      var rest := name;
      while true
        invariant old(buf) <= buf && 0 !in rest && |rest| <= |name|
        invariant Drafted(d, buf, rest, table, hops, gap, log) && d.n <= |table| && Longer(table[d.n..], rest)
        invariant WellFormed(name) ==> WellFormed(rest) && d.whole == name && d.before == old(buf)
        invariant (gap >= |d.before| <==> old(gap) >= |old(buf)|) && (gap < |d.before| ==> gap == old(gap))
        invariant log == old(log) && old(table) <= table
        invariant PlaceRest(Values(table), |buf|, capacity, rest) == PlaceRest(known, |old(buf)|, capacity, name)
        decreases |rest|
      {
        var ref := Find(rest);
        if ref.Some? {
          PlaceFound(table, |buf|, capacity, rest, ref.value);
          if |buf| + 2 > capacity {
            return -2;
          }
          var _ := PutPointer(ref.value, rest, d);
          return |buf|;
        }
        PlaceOther(table, |buf|, capacity, rest);
        var dot := FirstDot(rest);
        if dot.None? {
          LastLabel(rest);
          if |rest| > 63 {
            return -1;
          }
          if |buf| + |rest| + 1 > capacity {
            return -2;
          }
          PutLast(rest, d);
          return |buf|;
        }
        LabelBeforeDot(rest, dot.value);
        var l, rest' := rest[..dot.value], rest[dot.value + 1..];
        if |l| > 63 {
          return -1;
        }
        if |buf| + |l| + 1 > capacity {
          return -2;
        }
        d := PutLabel(l, rest, rest', d);
        rest := rest';
      }
    }

    /** dnsname_to_labels: the first offset behind the name, -1 for a label that is too long,
        -2 for a name that does not fit, exactly as in the layout. The terminator is written without a
        bounds check: it goes behind the end of the buffer exactly if no suffix of the name can be
        pointed to, and the labels of a name that does not end in a dot reach up to the end. */
    method WriteName(name: seq<Byte>) returns (r: int)
      requires Valid() && 0 !in name
      modifies this
      ensures old(buf) <= buf && (r == -1 || r == -2 || r == |buf|) && (r >= 0 ==> Valid())
      ensures PlaceName(Values(old(table)), |old(buf)|, capacity, name) ==
                if r >= 0 then At(|buf|, Values(table)) else Bad(r)
      ensures r >= 0 ==> gap == NextGap(old(gap), |old(buf)|, |buf|) && old(log) <= log
      ensures r >= 0 && WellFormed(name) ==> |log| == |old(log)| + 1
      ensures r >= 0 && WellFormed(name) ==>
                var w := log[|old(log)|]; w.name == name && w.pos == |old(buf)| && w.end == |buf|
      ensures r >= 0 ==> |buf| <= |old(buf)| + |name| + 2 && |buf| <= capacity + 1
      ensures r >= 0 ==> (|buf| > capacity <==>
                !SuffixKnown(Values(old(table)), name) && EndsInLabel(name) && |old(buf)| + |name| + 1 == capacity)
      ensures |name| <= 255 && ShortLabels(name) && |old(buf)| + |name| + 2 <= capacity ==> r >= 0
      ensures r >= 0 ==> |name| <= 255 && old(table) <= table && (name in Values(table) || |old(table)| == 128)
    {
      assert |table| <= MAX_LABELS;
      hide TableOk, LogOk, WellFormed, ShortLabels, SuffixKnown, EndsInLabel, PlaceRest, Values;
      PlaceIs(Values(table), |buf|, capacity, name);
      PlaceRemembers(Values(table), |buf|, capacity, name);
      r := WriteLabels(name);
    }
  }

  lemma TableJoin(buf: seq<Byte>, g: nat, table: seq<Entry>, n: nat, hops: seq<nat>, k: nat)
    requires n <= |table| <= MAX_LABELS && TableOk(buf, g, table[..n], hops)
    requires forall i :: 0 <= i < |table[n..]| ==> EntryOk(buf, g, table[n..][i], k)
    ensures TableOk(buf, g, table, hops + seq(|table| - n, _ => k))
  {
    hide EntryOk;
    var hops' := hops + seq(|table| - n, _ => k);
    forall i | 0 <= i < |table|
      ensures EntryOk(buf, g, table[i], hops'[i])
    {
      if i < n {
        assert table[i] == table[..n][i];
      } else {
        assert table[i] == table[n..][i - n];
      }
    }
  }

  lemma LogJoin(buf: seq<Byte>, g: nat, log: seq<Written>, w: Written)
    requires LogOk(buf, g, log) && WrittenOk(buf, g, w)
    ensures LogOk(buf, g, log + [w])
  {
    hide WrittenOk;
  }

  predicate ShortLabels(name: seq<Byte>)
    decreases |name|
  {
    var dot := FirstDot(name);
    if dot.None? then |name| <= 63 else dot.value <= 63 && ShortLabels(name[dot.value + 1..])
  }

  // Everything before the first dot, and what comes after it
  lemma LabelBeforeDot(rest: seq<Byte>, dot: nat)
    requires FirstDot(rest) == Some(dot)
    ensures FirstLabel(rest, rest[..dot], rest[dot + 1..])
    ensures ShortLabels(rest) <==> dot <= 63 && ShortLabels(rest[dot + 1..])
  {
    hide FirstDot;
  }

  lemma LastLabel(rest: seq<Byte>)
    requires FirstDot(rest).None?
    ensures rest != [] ==> FirstLabel(rest, rest, [])
    ensures ShortLabels(rest) <==> |rest| <= 63
    ensures Labels([]) == [] && WellFormed([])
  {
    assert FirstDot([]).None?;
  }

  // ---- The layout: how far a name reaches, and which suffixes can be pointed to afterwards ----

  datatype Layout = Bad(code: int) | At(end: nat, known: seq<seq<Byte>>)

  function Values(table: seq<Entry>): (r: seq<seq<Byte>>)
    ensures |r| == |table| && forall i :: 0 <= i < |r| ==> r[i] == table[i].v
  {
    seq(|table|, i requires 0 <= i < |table| => table[i].v)
  }

  function Remember(known: seq<seq<Byte>>, v: seq<Byte>): seq<seq<Byte>> {
    if |known| < MAX_LABELS then known + [v] else known
  }

  // What is left of a name, from `at` on in a buffer of `cap` bytes: up to a suffix that is known, for which
  // there is a pointer, every label takes a byte more. The terminator is not checked against the end.
  function PlaceRest(known: seq<seq<Byte>>, at: nat, cap: nat, rest: seq<Byte>): Layout
    decreases |rest|
  {
    var dot := FirstDot(rest);
    var l := if dot.Some? then dot.value else |rest|;
    if rest in known then if at + 2 > cap then Bad(-2) else At(at + 2, known)
    else if l > 63 then Bad(-1)
    else if at + l + 1 > cap then Bad(-2)
    else if dot.None? then At(at + l + 1 + if rest == [] then 0 else 1, Remember(known, rest))
    else PlaceRest(Remember(known, rest), at + l + 1, cap, rest[l + 1..])
  }

  function PlaceName(known: seq<seq<Byte>>, at: nat, cap: nat, name: seq<Byte>): Layout {
    if |name| > MAX_NAME then Bad(-2) else PlaceRest(known, at, cap, name)
  }

  // Some suffix of the name, from a label on, can be pointed to.
  predicate SuffixKnown(known: seq<seq<Byte>>, name: seq<Byte>)
    decreases |name|
  {
    var dot := FirstDot(name);
    name in known || (dot.Some? && SuffixKnown(known, name[dot.value + 1..]))
  }

  // The last label is not empty.
  predicate EndsInLabel(name: seq<Byte>) {
    name != [] && name[|name| - 1] != DOT
  }

  // A longer name is no suffix of this one.
  lemma {:induction false} SuffixLonger(known: seq<seq<Byte>>, v: seq<Byte>, name: seq<Byte>)
    requires |v| > |name|
    ensures SuffixKnown(Remember(known, v), name) <==> SuffixKnown(known, name)
    decreases |name|
  {
    hide FirstDot;
    var dot := FirstDot(name);
    if dot.Some? {
      SuffixLonger(known, v, name[dot.value + 1..]);
    }
  }

  /** How much room a name needs */
  lemma {:induction false} PlaceRoom(known: seq<seq<Byte>>, at: nat, cap: nat, name: seq<Byte>)
    ensures var p := PlaceRest(known, at, cap, name);
      && (p.At? ==> p.end <= at + |name| + 2 && p.end <= cap + 1)
      && (ShortLabels(name) && at + |name| + 2 <= cap ==> p.At?)
    decreases |name|
  {
    hide FirstDot;
    var dot := FirstDot(name);
    if name !in known && dot.Some? {
      PlaceRoom(Remember(known, name), at + dot.value + 1, cap, name[dot.value + 1..]);
    }
  }

  lemma PlaceLabel(known: seq<seq<Byte>>, at: nat, cap: nat, name: seq<Byte>, dot: nat)
    requires FirstDot(name) == Some(dot) && name !in known
    ensures PlaceRest(known, at, cap, name) ==
              if dot > 63 then Bad(-1) else if at + dot + 1 > cap then Bad(-2)
              else PlaceRest(Remember(known, name), at + dot + 1, cap, name[dot + 1..])
    ensures ShortLabels(name) <==> dot <= 63 && ShortLabels(name[dot + 1..])
  {
    hide FirstDot;
  }

  lemma PlaceLastLabel(known: seq<seq<Byte>>, at: nat, cap: nat, name: seq<Byte>)
    requires FirstDot(name).None? && name !in known
    ensures PlaceRest(known, at, cap, name) ==
              if |name| > 63 then Bad(-1) else if at + |name| + 1 > cap then Bad(-2)
              else At(at + |name| + 1 + if name == [] then 0 else 1, Remember(known, name))
    ensures (ShortLabels(name) <==> |name| <= 63) && (EndsInLabel(name) <==> name != [])
  {
    hide FirstDot;
  }

  lemma UnknownMeans(known: seq<seq<Byte>>, name: seq<Byte>)
    requires !SuffixKnown(known, name)
    ensures name !in known && var dot := FirstDot(name); dot.Some? ==> !SuffixKnown(known, name[dot.value + 1..])
  {
    hide FirstDot;
  }

  /** With nothing to point to, exactly how much, and when the terminator goes behind the end */
  lemma {:induction false} PlaceUnknown(known: seq<seq<Byte>>, at: nat, cap: nat, name: seq<Byte>)
    requires !SuffixKnown(known, name)
    ensures var p := PlaceRest(known, at, cap, name);
      && (p.At? <==> ShortLabels(name) && at + |name| + 1 <= cap)
      && (p.At? ==> p.end == at + |name| + if EndsInLabel(name) then 2 else 1)
    decreases |name|
  {
    hide FirstDot, SuffixKnown, EndsInLabel, PlaceRest, ShortLabels, Remember;
    var dot := FirstDot(name);
    UnknownMeans(known, name);
    if dot.Some? {
      var rest := name[dot.value + 1..];
      SuffixLonger(known, name, rest);
      EndsSame(name, dot.value);
      PlaceLabel(known, at, cap, name, dot.value);
      PlaceUnknown(Remember(known, name), at + dot.value + 1, cap, rest);
    } else {
      PlaceLastLabel(known, at, cap, name);
    }
  }

  /** With something to point to, it never does. */
  lemma {:induction false} PlaceKnown(known: seq<seq<Byte>>, at: nat, cap: nat, name: seq<Byte>)
    requires SuffixKnown(known, name)
    ensures var p := PlaceRest(known, at, cap, name); p.At? ==> p.end <= cap
    decreases |name|
  {
    hide FirstDot;
    var dot := FirstDot(name);
    if name !in known {
      var rest := name[dot.value + 1..];
      SuffixLonger(known, name, rest);
      PlaceKnown(Remember(known, name), at + dot.value + 1, cap, rest);
    }
  }

  lemma PlaceIs(known: seq<seq<Byte>>, at: nat, cap: nat, name: seq<Byte>)
    ensures var p := PlaceRest(known, at, cap, name);
      && (p.At? ==> p.end <= at + |name| + 2 && p.end <= cap + 1)
      && (p.At? ==> (p.end > cap <==> !SuffixKnown(known, name) && EndsInLabel(name) && at + |name| + 1 == cap))
      && (ShortLabels(name) && at + |name| + 2 <= cap ==> p.At?)
  {
    hide PlaceRest, SuffixKnown, EndsInLabel, ShortLabels;
    PlaceRoom(known, at, cap, name);
    if SuffixKnown(known, name) {
      PlaceKnown(known, at, cap, name);
    } else {
      PlaceUnknown(known, at, cap, name);
    }
  }

  lemma EndsSame(name: seq<Byte>, dot: nat)
    requires dot < |name| && name[dot] == DOT
    ensures EndsInLabel(name) <==> EndsInLabel(name[dot + 1..])
  {
  }

  /** Every suffix is remembered as long as there is room for it in the table. */
  lemma {:induction false} PlaceRemembers(known: seq<seq<Byte>>, at: nat, cap: nat, name: seq<Byte>)
    ensures var p := PlaceRest(known, at, cap, name);
      p.At? ==> known <= p.known && (name in p.known || |known| >= MAX_LABELS)
    decreases |name|
  {
    hide FirstDot;
    var dot := FirstDot(name);
    var known' := Remember(known, name);
    assert known <= known' && (|known| < MAX_LABELS ==> known'[|known|] == name);
    if name !in known && dot.Some? {
      PlaceRemembers(known', at + dot.value + 1, cap, name[dot.value + 1..]);
    }
  }

  lemma PlaceFound(table: seq<Entry>, at: nat, cap: nat, rest: seq<Byte>, i: nat)
    requires i < |table| && table[i].v == rest
    ensures PlaceRest(Values(table), at, cap, rest) == if at + 2 > cap then Bad(-2) else At(at + 2, Values(table))
  {
    assert Values(table)[i] == rest;
  }

  lemma PlaceOther(table: seq<Entry>, at: nat, cap: nat, rest: seq<Byte>)
    requires forall i :: 0 <= i < |table| ==> table[i].v != rest
    ensures var dot := FirstDot(rest); var l := if dot.Some? then dot.value else |rest|;
      PlaceRest(Values(table), at, cap, rest) ==
        if l > 63 then Bad(-1)
        else if at + l + 1 > cap then Bad(-2)
        else if dot.None? then At(at + l + 1 + if rest == [] then 0 else 1, Remember(Values(table), rest))
        else PlaceRest(Remember(Values(table), rest), at + l + 1, cap, rest[l + 1..])
  {
    hide FirstDot;
  }

  lemma EntryHops(buf: seq<Byte>, g: nat, table: seq<Entry>, hops: seq<nat>, i: nat) returns (k: nat)
    requires TableOk(buf, g, table, hops) && i < |table| && WellFormed(table[i].v)
    ensures table[i].pos < 0x4000 && 2 * k <= |buf| && Spells(buf, table[i].pos, Labels(table[i].v), k, g)
  {
    k := hops[i];
    assert EntryOk(buf, g, table[i], hops[i]);
  }

  // ---- The state of the writer in the middle of a name ----

  // What the bytes and the table stood for before the last empty label of the name, or before
  // the name; what of the name comes after that, and how much of it has been written.
  datatype Draft = Draft(before: seq<Byte>, whole: seq<Byte>, ls: seq<Label>, n: nat, marks: seq<nat>)

  // The entries are for longer suffixes than what is left, and that is without empty labels
  // if one of them is.
  ghost predicate Suffixes(entries: seq<Entry>, rest: seq<Byte>) {
    forall i :: 0 <= i < |entries| ==> |entries[i].v| >= |rest| && (WellFormed(entries[i].v) ==> WellFormed(rest))
  }

  ghost predicate Drafted(d: Draft, buf: seq<Byte>, rest: seq<Byte>, table: seq<Entry>, hops: seq<nat>, gap: nat,
                          log: seq<Written>) {
    && d.before <= buf && d.n <= |table| <= MAX_LABELS && (gap >= |d.before| || gap + 2 <= |d.before|)
    && TableOk(d.before, gap, table[..d.n], hops) && LogOk(d.before, gap, log)
    && Pending(buf, |d.before|, d.ls, rest, table[d.n..], d.marks) && Suffixes(table[d.n..], rest)
    && Labels(d.whole) == d.ls + Labels(rest) && (WellFormed(d.whole) <==> WellFormed(rest)) && |d.whole| <= MAX_NAME
  }

  // The first label of what is left of a name, and what comes after it
  ghost predicate FirstLabel(rest: seq<Byte>, l: Label, rest': seq<Byte>) {
    && Labels(rest) == [l] + Labels(rest') && |rest'| < |rest|
    && (WellFormed(rest) <==> l != [] && WellFormed(rest'))
  }

  lemma DraftStart(buf: seq<Byte>, name: seq<Byte>, table: seq<Entry>, hops: seq<nat>, gap: nat, log: seq<Written>)
    requires TableOk(buf, gap, table, hops) && LogOk(buf, gap, log) && (gap >= |buf| || gap + 2 <= |buf|)
             && |name| <= MAX_NAME
    ensures Drafted(Draft(buf, name, [], |table|, []), buf, name, table, hops, gap, log)
  {
    hide LogOk, Labels, WellFormed;
    assert table[..|table|] == table && table[|table|..] == [];
    assert buf[|buf|..] == [] && [] + Labels(name) == Labels(name);
  }

  lemma DraftApart(d: Draft, buf: seq<Byte>, rest: seq<Byte>, table: seq<Entry>, hops: seq<nat>, gap: nat,
                   log: seq<Written>)
    requires Drafted(d, buf, rest, table, hops, gap, log)
    ensures |d.before| <= |buf| && (gap >= |d.before| || gap + 2 <= |d.before|)
  {
  }

  lemma PendingPlaces(buf: seq<Byte>, start: nat, ls: seq<Label>, rest: seq<Byte>, entries: seq<Entry>, marks: seq<nat>)
    requires Pending(buf, start, ls, rest, entries, marks)
    ensures forall i :: 0 <= i < |entries| ==> entries[i].pos < 0x4000
  {
    hide Labels, Encoded;
    forall i | 0 <= i < |entries| ensures entries[i].pos < 0x4000 {
      assert MarkOk(start, ls, rest, entries[i], marks[i]);
    }
  }

  lemma DraftPlace(d: Draft, buf: seq<Byte>, rest: seq<Byte>, table: seq<Entry>, hops: seq<nat>, gap: nat,
                   log: seq<Written>, i: nat)
    requires Drafted(d, buf, rest, table, hops, gap, log) && i < |table|
    ensures table[i].pos < 0x4000
  {
    hide Labels, WellFormed, Pending, Suffixes, LogOk, Spells;
    PendingPlaces(buf, |d.before|, d.ls, rest, table[d.n..], d.marks);
    if i < d.n {
      assert table[i] == table[..d.n][i];
    } else {
      assert table[i] == table[d.n..][i - d.n];
    }
  }

  ghost predicate Longer(entries: seq<Entry>, rest: seq<Byte>) {
    forall i :: 0 <= i < |entries| ==> |entries[i].v| > |rest|
  }

  lemma LongerAt(table: seq<Entry>, n: nat, rest: seq<Byte>, i: nat)
    requires n <= i < |table| && Longer(table[n..], rest)
    ensures |table[i].v| > |rest|
  {
    assert table[i] == table[n..][i - n];
  }

  // What is left of the name is in the table: it was there before the name.
  lemma DraftHops(d: Draft, buf: seq<Byte>, rest: seq<Byte>, table: seq<Entry>, hops: seq<nat>, gap: nat,
                  log: seq<Written>, i: nat) returns (k: nat)
    requires Drafted(d, buf, rest, table, hops, gap, log) && Longer(table[d.n..], rest)
    requires i < |table| && table[i].v == rest && WellFormed(rest)
    ensures table[i].pos < 0x4000 && 2 * k <= |d.before| && Spells(d.before, table[i].pos, Labels(rest), k, gap)
  {
    hide Labels, WellFormed, Pending, Suffixes, LogOk, Spells, TableOk;
    if i >= d.n {
      LongerAt(table, d.n, rest, i);
    }
    assert table[i] == table[..d.n][i];
    k := EntryHops(d.before, gap, table[..d.n], hops, i);
  }

  lemma DraftEntry(d: Draft, buf: seq<Byte>, rest: seq<Byte>, table: seq<Entry>, hops: seq<nat>, gap: nat,
                   log: seq<Written>)
    requires Drafted(d, buf, rest, table, hops, gap, log) && |buf| < 0x4000 && |table| < MAX_LABELS
    ensures Drafted(d.(marks := d.marks + [|d.ls|]), buf, rest, table + [Entry(rest, |buf|)], hops, gap, log)
  {
    hide Labels, WellFormed, Pending, LogOk, TableOk;
    var table' := table + [Entry(rest, |buf|)];
    assert table'[..d.n] == table[..d.n] && table'[d.n..] == table[d.n..] + [Entry(rest, |buf|)];
    PendingEntry(buf, |d.before|, d.ls, rest, table[d.n..], d.marks);
  }

  lemma DraftLabel(d: Draft, buf: seq<Byte>, rest: seq<Byte>, table: seq<Entry>, hops: seq<nat>, gap: nat,
                   log: seq<Written>, l: Label, rest': seq<Byte>)
    requires Drafted(d, buf, rest, table, hops, gap, log) && 0 < |l| <= 63 && FirstLabel(rest, l, rest')
    ensures Drafted(d.(ls := d.ls + [l]), buf + ([|l|] + l), rest', table, hops, gap, log)
    ensures Longer(table[d.n..], rest')
  {
    hide Labels, WellFormed, Pending, LogOk, TableOk;
    PendingNext(buf, |d.before|, d.ls, rest, table[d.n..], d.marks, l, rest');
    assert d.ls + [l] + Labels(rest') == d.ls + ([l] + Labels(rest'));
  }

  /** A name that is written one byte past the end of the buffer of a response */
  method TerminatorCanOverrun() returns (w: NameWriter, r: int)
    ensures fresh(w) && w.capacity == 1500 && r == |w.buf| == 1501
  {
    w := new NameWriter(1500);
    var _ := w.Append(seq(1498, _ => 7));
    assert FirstDot([97]).None?;
    r := w.WriteName([97]);
  }
}
