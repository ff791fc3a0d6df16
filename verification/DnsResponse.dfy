/**
 The response of the DNS server: header, questions and records, with one compression table for
 all the names. What is written is what a reader of the packet finds.
 */
module DnsResponse {
  import opened Chunks
  import opened DnsNames
  import opened DnsWriter
  import opened Wrappers

  const BUF_LEN := 1500
  const UDP_LIMIT := 512
  const HEADER := 12

  datatype Question = Question(name: seq<Byte>, kind: nat, cls: nat)
  datatype Item = Item(name: seq<Byte>, kind: nat, cls: nat, ttl: nat, isName: bool, data: seq<Byte>)
  datatype Decoded<T> = Decoded(value: T, next: nat)

  // C strings, and numbers that fit the fields of the structures
  predicate QuestionFits(q: Question) {
    0 !in q.name && q.kind < 0x10000 && q.cls < 0x10000
  }

  predicate ItemFits(it: Item) {
    0 !in it.name && it.kind < 0x10000 && it.cls < 0x10000 && it.ttl < 0x1_0000_0000 && |it.data| < 0x10000
      && (it.isName ==> 0 !in it.data)
  }

  // ---- Numbers in network order ----

  function Bytes16(x: nat): (r: seq<Byte>)
    requires x < 0x10000
    ensures |r| == 2 && r[0] as int * 256 + r[1] == x
  {
    [x / 256, x % 256]
  }

  function Bytes32(x: nat): (r: seq<Byte>)
    requires x < 0x1_0000_0000
    ensures |r| == 4 && ((r[0] as int * 256 + r[1]) * 256 + r[2]) * 256 + r[3] == x
  {
    Bytes16(x / 0x10000) + Bytes16(x % 0x10000)
  }

  function Get16(p: seq<Byte>, at: nat): nat
    requires at + 2 <= |p|
  {
    p[at] as int * 256 + p[at + 1]
  }

  function Get32(p: seq<Byte>, at: nat): nat
    requires at + 4 <= |p|
  {
    Get16(p, at) * 0x10000 + Get16(p, at + 2)
  }

  lemma Held16(p: seq<Byte>, at: nat, x: nat)
    requires x < 0x10000 && Holds(p, at, Bytes16(x))
    ensures Get16(p, at) == x
  {
    var w := p[at..at + 2];
    assert w[0] == p[at] && w[1] == p[at + 1];
  }

  lemma Held32(p: seq<Byte>, at: nat, x: nat)
    requires x < 0x1_0000_0000 && Holds(p, at, Bytes32(x))
    ensures Get32(p, at) == x
  {
    HoldsParts(p, at, Bytes16(x / 0x10000), Bytes16(x % 0x10000));
    Held16(p, at, x / 0x10000);
    Held16(p, at + 2, x % 0x10000);
  }

  lemma HoldsPrefix(p: seq<Byte>, p': seq<Byte>, at: nat, bytes: seq<Byte>)
    requires p <= p' && Holds(p, at, bytes)
    ensures Holds(p', at, bytes)
  {
    assert p'[at..at + |bytes|] == p[at..at + |bytes|];
  }

  // ---- A reader of the packet ----

  // The loop body of request_parse over the questions
  function DecodeQuestion(p: seq<Byte>, pos: nat): Option<Decoded<Question>> {
    var r := NameParse(p, pos, MAX_NAME + 1);
    if r.None? || r.value.idx + 4 > |p| then None
    else Some(Decoded(Question(r.value.name, Get16(p, r.value.idx), Get16(p, r.value.idx + 2)), r.value.idx + 4))
  }

  // A resource record of reply_parse; the length of a name must be the one announced.
  function DecodeItem(p: seq<Byte>, pos: nat, isName: bool): Option<Decoded<Item>> {
    var r := NameParse(p, pos, MAX_NAME + 1);
    if r.None? || r.value.idx + 10 > |p| then None
    else
      var e := r.value.idx;
      var next := e + 10 + Get16(p, e + 8);
      if next > |p| then None
      else if !isName then
        Some(Decoded(Item(r.value.name, Get16(p, e), Get16(p, e + 2), Get32(p, e + 4), false, p[e + 10..next]), next))
      else
        var d := NameParse(p, e + 10, MAX_NAME + 1);
        if d.None? || d.value.idx != next then None
        else Some(Decoded(Item(r.value.name, Get16(p, e), Get16(p, e + 2), Get32(p, e + 4), true, d.value.name), next))
  }

  function DecodeQuestions(p: seq<Byte>, pos: nat, n: nat): Option<Decoded<seq<Question>>>
    decreases n
  {
    if n == 0 then Some(Decoded([], pos))
    else
      var q := DecodeQuestion(p, pos);
      if q.None? then None
      else
        var more := DecodeQuestions(p, q.value.next, n - 1);
        if more.None? then None else Some(Decoded([q.value.value] + more.value.value, more.value.next))
  }

  // The records, given which of them hold a name
  function DecodeItems(p: seq<Byte>, pos: nat, kinds: seq<bool>): Option<Decoded<seq<Item>>>
    decreases |kinds|
  {
    if kinds == [] then Some(Decoded([], pos))
    else
      var it := DecodeItem(p, pos, kinds[0]);
      if it.None? then None
      else
        var more := DecodeItems(p, it.value.next, kinds[1..]);
        if more.None? then None else Some(Decoded([it.value.value] + more.value.value, more.value.next))
  }

  // Names come back without a trailing dot.
  function CanonQuestion(q: Question): (r: Question)
    ensures r.kind == q.kind && r.cls == q.cls
    ensures DOT !in q.name ==> r.name == q.name
  {
    q.(name := Canonical(q.name))
  }

  function CanonItem(it: Item): (r: Item)
    ensures r.kind == it.kind && r.cls == it.cls && r.ttl == it.ttl && r.isName == it.isName
    ensures !it.isName ==> r.data == it.data
    ensures DOT !in it.name ==> r.name == it.name
  {
    it.(name := Canonical(it.name), data := if it.isName then Canonical(it.data) else it.data)
  }

  function CanonQuestions(qs: seq<Question>): (r: seq<Question>)
    ensures |r| == |qs| && forall i :: 0 <= i < |qs| ==> r[i] == CanonQuestion(qs[i])
  {
    if qs == [] then [] else [CanonQuestion(qs[0])] + CanonQuestions(qs[1..])
  }

  function CanonItems(items: seq<Item>): (r: seq<Item>)
    ensures |r| == |items| && forall i :: 0 <= i < |items| ==> r[i] == CanonItem(items[i])
  {
    if items == [] then [] else [CanonItem(items[0])] + CanonItems(items[1..])
  }

  function Kinds(items: seq<Item>): (r: seq<bool>)
    ensures |r| == |items| && forall i :: 0 <= i < |items| ==> r[i] == items[i].isName
  {
    if items == [] then [] else [items[0].isName] + Kinds(items[1..])
  }

  // ---- What has been written ----

  function QuestionFixed(q: Question): (r: seq<Byte>)
    requires QuestionFits(q)
    ensures |r| == 4 && r[0] as int * 256 + r[1] == q.kind && r[2] as int * 256 + r[3] == q.cls
  {
    Bytes16(q.kind) + Bytes16(q.cls)
  }

  function ItemFixed(it: Item): (r: seq<Byte>)
    requires ItemFits(it)
    ensures |r| == 8 && r[0] as int * 256 + r[1] == it.kind && r[2] as int * 256 + r[3] == it.cls
    ensures ((r[4] as int * 256 + r[5]) * 256 + r[6]) * 256 + r[7] == it.ttl
  {
    Bytes16(it.kind) + Bytes16(it.cls) + Bytes32(it.ttl)
  }

  // A question at pos
  ghost predicate QuestionAt(p: seq<Byte>, q: Question, w: Written, end: nat) {
    && QuestionFits(q) && WrittenOk(p, |p|, w) && w.name == q.name
    && Holds(p, w.end, QuestionFixed(q)) && end == w.end + 4
  }

  // Its name, what its data is as a name, and where it ends
  datatype Placed = Placed(name: Written, data: Written, end: nat)

  ghost predicate ItemAt(p: seq<Byte>, it: Item, pl: Placed) {
    var e := pl.name.end;
    && ItemFits(it) && WrittenOk(p, |p|, pl.name) && pl.name.name == it.name && e + 10 <= pl.end <= |p|
       && pl.end - e - 10 < 0x10000
    && Holds(p, e, ItemFixed(it)) && Holds(p, e + 8, Bytes16(pl.end - e - 10))
    && if it.isName then WrittenOk(p, |p|, pl.data) && pl.data.name == it.data && pl.data.pos == e + 10
       && pl.data.end == pl.end
       else pl.end == e + 10 + |it.data| && Holds(p, e + 10, it.data)
  }

  lemma WrittenPrefix(p: seq<Byte>, p': seq<Byte>, w: Written)
    requires p <= p' && WrittenOk(p, |p|, w)
    ensures WrittenOk(p', |p'|, w)
  {
    hide WrittenOk;
    assert LogOk(p, |p|, [w]);
    LogContinues(p, |p|, p', |p'|, [w]);
    assert WrittenOk(p', |p'|, [w][0]);
  }

  lemma QuestionPrefix(p: seq<Byte>, p': seq<Byte>, q: Question, w: Written, end: nat)
    requires p <= p' && QuestionAt(p, q, w, end)
    ensures QuestionAt(p', q, w, end)
  {
    hide WrittenOk, Holds;
    WrittenPrefix(p, p', w);
    HoldsPrefix(p, p', w.end, QuestionFixed(q));
  }

  lemma ItemPrefix(p: seq<Byte>, p': seq<Byte>, it: Item, pl: Placed)
    requires p <= p' && ItemAt(p, it, pl)
    ensures ItemAt(p', it, pl)
  {
    hide WrittenOk, Holds;
    var e := pl.name.end;
    WrittenPrefix(p, p', pl.name);
    HoldsPrefix(p, p', e, ItemFixed(it));
    HoldsPrefix(p, p', e + 8, Bytes16(pl.end - e - 10));
    if it.isName {
      WrittenPrefix(p, p', pl.data);
    } else {
      HoldsPrefix(p, p', e + 10, it.data);
    }
  }

  /** A question that has been written is read back. */
  lemma QuestionRead(p: seq<Byte>, q: Question, w: Written, end: nat)
    requires QuestionAt(p, q, w, end)
    ensures DecodeQuestion(p, w.pos) == Some(Decoded(CanonQuestion(q), end))
  {
    hide WrittenOk, NameParse, Canonical;
    WrittenParses(p, |p|, w);
    HoldsParts(p, w.end, Bytes16(q.kind), Bytes16(q.cls));
    Held16(p, w.end, q.kind);
    Held16(p, w.end + 2, q.cls);
  }

  lemma FixedRead(p: seq<Byte>, at: nat, it: Item)
    requires ItemFits(it) && Holds(p, at, ItemFixed(it))
    ensures Get16(p, at) == it.kind && Get16(p, at + 2) == it.cls && Get32(p, at + 4) == it.ttl
  {
    hide Holds, Get16, Get32, Bytes16, Bytes32;
    HoldsParts(p, at, Bytes16(it.kind) + Bytes16(it.cls), Bytes32(it.ttl));
    HoldsParts(p, at, Bytes16(it.kind), Bytes16(it.cls));
    HeldFits(p, at, Bytes16(it.kind));
    HeldFits(p, at + 2, Bytes16(it.cls));
    HeldFits(p, at + 4, Bytes32(it.ttl));
    Held16(p, at, it.kind);
    Held16(p, at + 2, it.cls);
    Held32(p, at + 4, it.ttl);
  }

  lemma HeldFits(p: seq<Byte>, at: nat, bytes: seq<Byte>)
    requires Holds(p, at, bytes)
    ensures at + |bytes| <= |p|
  {
  }

  /** A record that has been written is read back, with the right length. */
  lemma ItemRead(p: seq<Byte>, it: Item, pl: Placed)
    requires ItemAt(p, it, pl)
    ensures DecodeItem(p, pl.name.pos, it.isName) == Some(Decoded(CanonItem(it), pl.end))
  {
    hide WrittenOk, NameParse, Canonical, Get16, Get32, ItemFixed, Bytes16;
    var e := pl.name.end;
    WrittenParses(p, |p|, pl.name);
    FixedRead(p, e, it);
    Held16(p, e + 8, pl.end - e - 10);
    if it.isName {
      WrittenParses(p, |p|, pl.data);
    }
  }

  // ---- All the questions, all the records ----

  function QuestionsEnd(start: nat, ws: seq<Written>): nat {
    if ws == [] then start else ws[|ws| - 1].end + 4
  }

  // The questions are one behind the other from `start` on.
  ghost predicate QuestionsAt(p: seq<Byte>, start: nat, qs: seq<Question>, ws: seq<Written>) {
    && |ws| == |qs|
    && forall i :: 0 <= i < |ws| ==>
         QuestionAt(p, qs[i], ws[i], ws[i].end + 4) && ws[i].pos == QuestionsEnd(start, ws[..i])
  }

  lemma QuestionsGrow(p: seq<Byte>, p': seq<Byte>, start: nat, qs: seq<Question>, ws: seq<Written>)
    requires p <= p' && QuestionsAt(p, start, qs, ws)
    ensures QuestionsAt(p', start, qs, ws)
  {
    hide QuestionAt;
    forall i | 0 <= i < |ws| ensures QuestionAt(p', qs[i], ws[i], ws[i].end + 4) {
      QuestionPrefix(p, p', qs[i], ws[i], ws[i].end + 4);
    }
  }

  lemma QuestionsMore(p: seq<Byte>, start: nat, qs: seq<Question>, ws: seq<Written>, q: Question, w: Written)
    requires QuestionsAt(p, start, qs, ws) && QuestionAt(p, q, w, w.end + 4) && w.pos == QuestionsEnd(start, ws)
    ensures QuestionsAt(p, start, qs + [q], ws + [w])
  {
    hide QuestionAt;
    var ws' := ws + [w];
    assert ws'[..|ws|] == ws;
    assert forall i :: 0 <= i < |ws| ==> ws'[..i] == ws[..i];
  }

  lemma {:induction false} QuestionsRead(p: seq<Byte>, start: nat, qs: seq<Question>, ws: seq<Written>, i: nat)
    requires QuestionsAt(p, start, qs, ws) && i <= |qs|
    ensures DecodeQuestions(p, QuestionsEnd(start, ws[..i]), |qs| - i) ==
              Some(Decoded(CanonQuestions(qs[i..]), QuestionsEnd(start, ws)))
    decreases |qs| - i
  {
    hide QuestionAt, DecodeQuestion, CanonQuestion;
    if i == |qs| {
      assert ws[..i] == ws && qs[i..] == [];
    } else {
      QuestionRead(p, qs[i], ws[i], ws[i].end + 4);
      QuestionsRead(p, start, qs, ws, i + 1);
      assert QuestionsEnd(start, ws[..i + 1]) == ws[i].end + 4;
      assert qs[i..][1..] == qs[i + 1..];
    }
  }

  function ItemsEnd(start: nat, pls: seq<Placed>): nat {
    if pls == [] then start else pls[|pls| - 1].end
  }

  ghost predicate ItemsAt(p: seq<Byte>, start: nat, items: seq<Item>, pls: seq<Placed>) {
    && |pls| == |items|
    && forall i :: 0 <= i < |pls| ==> ItemAt(p, items[i], pls[i]) && pls[i].name.pos == ItemsEnd(start, pls[..i])
  }

  lemma ItemsGrow(p: seq<Byte>, p': seq<Byte>, start: nat, items: seq<Item>, pls: seq<Placed>)
    requires p <= p' && ItemsAt(p, start, items, pls)
    ensures ItemsAt(p', start, items, pls)
  {
    hide ItemAt;
    forall i | 0 <= i < |pls| ensures ItemAt(p', items[i], pls[i]) {
      ItemPrefix(p, p', items[i], pls[i]);
    }
  }

  lemma ItemsMore(p: seq<Byte>, start: nat, items: seq<Item>, pls: seq<Placed>, it: Item, pl: Placed)
    requires ItemsAt(p, start, items, pls) && ItemAt(p, it, pl) && pl.name.pos == ItemsEnd(start, pls)
    ensures ItemsAt(p, start, items + [it], pls + [pl])
  {
    hide ItemAt;
    var pls' := pls + [pl];
    assert pls'[..|pls|] == pls;
    assert forall i :: 0 <= i < |pls| ==> pls'[..i] == pls[..i];
  }

  lemma {:induction false} ItemsRead(p: seq<Byte>, start: nat, items: seq<Item>, pls: seq<Placed>, i: nat)
    requires ItemsAt(p, start, items, pls) && i <= |items|
    ensures DecodeItems(p, ItemsEnd(start, pls[..i]), Kinds(items[i..])) ==
              Some(Decoded(CanonItems(items[i..]), ItemsEnd(start, pls)))
    decreases |items| - i
  {
    hide ItemAt, DecodeItem, CanonItem;
    if i == |items| {
      assert pls[..i] == pls && items[i..] == [];
    } else {
      ItemRead(p, items[i], pls[i]);
      ItemsRead(p, start, items, pls, i + 1);
      assert ItemsEnd(start, pls[..i + 1]) == pls[i].end;
      assert items[i..][1..] == items[i + 1..];
      assert Kinds(items[i..])[1..] == Kinds(items[i + 1..]);
    }
  }

  // ---- How far questions and records reach ----

  function PlaceQuestion(known: seq<seq<Byte>>, at: nat, cap: nat, q: Question): Layout {
    var p := PlaceName(known, at, cap, q.name);
    if p.Bad? then p else if p.end + 4 > cap then Bad(-3) else At(p.end + 4, p.known)
  }

  function PlaceItem(known: seq<seq<Byte>>, at: nat, cap: nat, it: Item): Layout {
    var p := PlaceName(known, at, cap, it.name);
    if p.Bad? || p.end + 8 > cap then Bad(-3)
    else if !it.isName then if p.end + 10 + |it.data| > cap then Bad(-3) else At(p.end + 10 + |it.data|, p.known)
    else
      var d := PlaceName(p.known, p.end + 10, cap, it.data);
      if d.Bad? then Bad(-3) else d
  }

  function PlaceQuestions(known: seq<seq<Byte>>, at: nat, cap: nat, qs: seq<Question>): Layout
    decreases |qs|
  {
    if qs == [] then At(at, known)
    else
      var p := PlaceQuestion(known, at, cap, qs[0]);
      if p.Bad? then p else PlaceQuestions(p.known, p.end, cap, qs[1..])
  }

  function PlaceItems(known: seq<seq<Byte>>, at: nat, cap: nat, items: seq<Item>): Layout
    decreases |items|
  {
    if items == [] then At(at, known)
    else
      var p := PlaceItem(known, at, cap, items[0]);
      if p.Bad? then p else PlaceItems(p.known, p.end, cap, items[1..])
  }

  // What has been laid down is as the layout says, or it went wrong as the layout says.
  ghost predicate Follows(p: Layout, r: int, w: NameWriter)
    reads w
  {
    p == if r == 0 then At(|w.buf|, Values(w.table)) else Bad(r)
  }

  // ---- Writing ----

  // A question: 0, or what dnsname_to_labels failed with, or -3 for the jump to overflow
  method WriteQuestion(w: NameWriter, q: Question) returns (r: int, ghost wr: Written)
    requires w.Valid() && w.gap >= |w.buf| && QuestionFits(q)
    modifies w
    ensures r == 0 || r == -1 || r == -2 || r == -3
    ensures r == 0 ==> w.Valid() && w.gap >= |w.buf| && old(w.buf) <= w.buf && |w.buf| <= |old(w.buf)| + |q.name| + 6
    ensures r == 0 && WellFormed(q.name) ==> QuestionAt(w.buf, q, wr, |w.buf|) && wr.pos == |old(w.buf)|
    ensures |q.name| <= MAX_NAME && ShortLabels(q.name) && |old(w.buf)| + |q.name| + 6 <= w.capacity ==> r == 0
    ensures Follows(PlaceQuestion(Values(old(w.table)), |old(w.buf)|, w.capacity, q), r, w)
  {
    hide PlaceName, Values, SuffixKnown, EndsInLabel;
    hide TableOk, LogOk, WellFormed, ShortLabels, QuestionFixed, WrittenOk, Holds;
    r := w.WriteName(q.name);
    wr := Written([], 0, 0, 0);
    if r < 0 {
      return;
    }
    ghost var b1 := w.buf;
    var ok := w.Append(QuestionFixed(q));
    if !ok {
      return -3, wr;
    }
    r := 0;
    if WellFormed(q.name) {
      HoldsEnd(b1, QuestionFixed(q));
      wr := w.log[|old(w.log)|];
      LogAt(w.buf, w.gap, w.log, |old(w.log)|);
    }
  }

  lemma LogAt(buf: seq<Byte>, gap: nat, log: seq<Written>, i: nat)
    requires LogOk(buf, gap, log) && i < |log| && gap >= |buf|
    ensures WrittenOk(buf, |buf|, log[i])
  {
    hide WrittenOk;
    LogContinues(buf, gap, buf, |buf|, log);
  }

  lemma HoldsEnd(b: seq<Byte>, bytes: seq<Byte>)
    ensures Holds(b + bytes, |b|, bytes)
  {
  }

  // The fixed part of a record and the length, filled in behind it
  lemma FilledIn(b: seq<Byte>, fixed: seq<Byte>, b': seq<Byte>, len: nat)
    requires |fixed| == 8 && b + fixed + [0, 0] <= b' && len < 0x10000
    ensures var at := |b| + 8; var p := b'[at := len / 256][at + 1 := len % 256];
      b <= p && Holds(p, |b|, fixed) && Holds(p, at, Bytes16(len)) && b + fixed <= p
  {
    var at := |b| + 8;
    var p := b'[at := len / 256][at + 1 := len % 256];
    assert b + fixed <= p by {
      assert p[..at] == b'[..at] == b + fixed;
    }
    assert p[|b|..at] == (b + fixed)[|b|..] == fixed;
    assert p[at..at + 2] == Bytes16(len);
  }

  function ItemRoom(it: Item): nat {
    |it.name| + |it.data| + 14
  }

  // A record whose data is a name: the length is filled in when the name is there.
  method WriteNameData(w: NameWriter, it: Item, ghost b: seq<Byte>) returns (ok: bool)
    requires w.Valid() && w.gap >= |w.buf| && ItemFits(it) && it.isName && w.buf == b + ItemFixed(it)
    modifies w
    ensures ok ==>
              w.Valid() && w.gap >= |w.buf| && |old(w.buf)| + 2 <= |w.buf| <= |old(w.buf)| + |it.data| + 4 && b <= w.buf
                && old(w.log) <= w.log
    ensures ok ==>
              |w.buf| < 0x10000 && Holds(w.buf, |b|, ItemFixed(it))
                && Holds(w.buf, |b| + 8, Bytes16(|w.buf| - |b| - 10))
    ensures ok && WellFormed(it.data) ==> |w.log| == |old(w.log)| + 1
    ensures ok && WellFormed(it.data) ==>
              var d := w.log[|old(w.log)|]; d.name == it.data && d.pos == |b| + 10 && d.end == |w.buf|
    ensures |it.data| <= MAX_NAME && ShortLabels(it.data) && |old(w.buf)| + |it.data| + 4 <= w.capacity ==> ok
    ensures var p := PlaceName(Values(old(w.table)), |old(w.buf)| + 2, w.capacity, it.data);
      if ok then p == At(|w.buf|, Values(w.table)) else p.Bad?
  {
    hide PlaceName, Values, SuffixKnown, EndsInLabel;
    hide TableOk, LogOk, WellFormed, ShortLabels, ItemFixed, Holds, Bytes16;
    var lenIdx := |w.buf|;
    w.Reserve();
    assert w.buf == b + ItemFixed(it) + [0, 0];
    var nameStart := |w.buf|;
    var r := w.WriteName(it.data);
    if r < 0 {
      return false;
    }
    ghost var b' := w.buf;
    var len := r - nameStart;
    w.FillIn(lenIdx, len / 256 % 256, len % 256);
    FilledIn(b, ItemFixed(it), b', len);
    ok := true;
  }

  /** A record */
  method WriteItem(w: NameWriter, it: Item) returns (ok: bool, ghost pl: Placed)
    requires w.Valid() && w.gap >= |w.buf| && ItemFits(it)
    modifies w
    ensures ok ==> w.Valid() && w.gap >= |w.buf| && old(w.buf) <= w.buf && |w.buf| <= |old(w.buf)| + ItemRoom(it)
    ensures ok && WellFormed(it.name) && (it.isName ==> WellFormed(it.data)) ==>
              ItemAt(w.buf, it, pl) && pl.name.pos == |old(w.buf)| && pl.end == |w.buf|
    ensures ItemShort(it) && |old(w.buf)| + ItemRoom(it) <= w.capacity ==> ok
    ensures Follows(PlaceItem(Values(old(w.table)), |old(w.buf)|, w.capacity, it), if ok then 0 else -3, w)
  {
    hide PlaceName, Values, SuffixKnown, EndsInLabel;
    hide TableOk, LogOk, WellFormed, ShortLabels, ItemFixed, Holds, Bytes16, WrittenOk;
    ghost var none := Written([], 0, 0, 0);
    pl := Placed(none, none, 0);
    var r := w.WriteName(it.name);
    if r < 0 {
      return false, pl;
    }
    ghost var b := w.buf;
    ok := w.Append(ItemFixed(it));
    if !ok {
      return;
    }
    if it.isName {
      ok := WriteNameData(w, it, b);
    } else {
      ok := WriteData(w, it, b);
    }
    if ok && WellFormed(it.name) && (it.isName ==> WellFormed(it.data)) {
      var i := |old(w.log)|;
      LogAt(w.buf, w.gap, w.log, i);
      if it.isName {
        LogAt(w.buf, w.gap, w.log, i + 1);
      }
      pl := Placed(w.log[i], if it.isName then w.log[i + 1] else none, |w.buf|);
    }
  }

  predicate ItemShort(it: Item) {
    |it.name| <= MAX_NAME && ShortLabels(it.name) && (it.isName ==> |it.data| <= MAX_NAME && ShortLabels(it.data))
  }

  // A record whose data is bytes
  method WriteData(w: NameWriter, it: Item, ghost b: seq<Byte>) returns (ok: bool)
    requires w.Valid() && w.gap >= |w.buf| && ItemFits(it) && !it.isName && w.buf == b + ItemFixed(it)
    modifies w
    ensures w.log == old(w.log)
    ensures ok ==> w.Valid() && w.gap >= |w.buf| && |w.buf| == |old(w.buf)| + |it.data| + 2 && b <= w.buf
    ensures ok ==>
              Holds(w.buf, |b|, ItemFixed(it)) && Holds(w.buf, |b| + 8, Bytes16(|it.data|))
                && Holds(w.buf, |b| + 10, it.data)
    ensures ok == (|old(w.buf)| + |it.data| + 2 <= w.capacity) && w.table == old(w.table)
  {
    hide TableOk, LogOk, Holds;
    ok := w.Append(Bytes16(|it.data|));
    if ok {
      ok := w.Append(it.data);
      if ok {
        Laid(b, ItemFixed(it), Bytes16(|it.data|), it.data);
      }
    }
  }

  lemma Laid(b: seq<Byte>, x: seq<Byte>, y: seq<Byte>, z: seq<Byte>)
    ensures var p := b + x + y + z;
      b <= p && Holds(p, |b|, x) && Holds(p, |b| + |x|, y) && Holds(p, |b| + |x| + |y|, z)
  {
    var p := b + x + y + z;
    assert p[..|b|] == b;
    assert p[|b|..|b| + |x|] == x;
    assert p[|b| + |x|..|b| + |x| + |y|] == y;
    assert p[|b| + |x| + |y|..] == z;
  }

  // ---- The whole response ----

  datatype Request = Request(transId: nat, flags: nat, questions: seq<Question>, answer: seq<Item>,
                             authority: seq<Item>, additional: seq<Item>)
  datatype Response = Failed(code: int) | Whole(bytes: seq<Byte>) | Truncated(bytes: seq<Byte>)

  predicate RequestFits(req: Request) {
    && req.transId < 0x10000 && req.flags < 0x10000
    && (forall i :: 0 <= i < |req.questions| ==> QuestionFits(req.questions[i]))
    && (forall i :: 0 <= i < |Items(req)| ==> ItemFits(Items(req)[i]))
  }

  function Items(req: Request): seq<Item> {
    req.answer + req.authority + req.additional
  }

  function HeaderBytes(req: Request): (r: seq<Byte>)
    requires req.transId < 0x10000 && req.flags < 0x10000
    ensures |r| == HEADER
  {
    Bytes16(req.transId) + Bytes16(req.flags) + Bytes16(|req.questions| % 0x10000) + Bytes16(|req.answer| % 0x10000) +
    Bytes16(|req.authority| % 0x10000) + Bytes16(|req.additional| % 0x10000)
  }

  /** The header as section 4.1.1 of RFC 1035 lays it out: identifier, flags and how many entries each section has */
  predicate HeaderSays(p: seq<Byte>, req: Request, flags: nat) {
    && |p| >= 12
    && p[0] as int * 256 + p[1] == req.transId && p[2] as int * 256 + p[3] == flags
    && p[4] as int * 256 + p[5] == |req.questions| % 0x10000
    && p[6] as int * 256 + p[7] == |req.answer| % 0x10000
    && p[8] as int * 256 + p[9] == |req.authority| % 0x10000
    && p[10] as int * 256 + p[11] == |req.additional| % 0x10000
  }

  lemma HeaderSaid(req: Request)
    requires req.transId < 0x10000 && req.flags < 0x10000
    ensures HeaderSays(HeaderBytes(req), req, req.flags)
  {
    hide Bytes16;
  }

  // Only the flags differ, and only in their first byte.
  lemma HeaderMarked(p: seq<Byte>, header: seq<Byte>, req: Request, flags: nat)
    requires HeaderSays(header, req, flags) && |header| == HEADER <= |p| && p[..HEADER] == header[2 := p[2]]
    ensures HeaderSays(p, req, flags + (p[2] as int - header[2]) * 256)
  {
    assert forall i :: 0 <= i < HEADER && i != 2 ==> p[i] == p[..HEADER][i] == header[i];
  }

  lemma HeaderKept(p: seq<Byte>, header: seq<Byte>, req: Request, flags: nat)
    requires HeaderSays(header, req, flags) && |header| == HEADER && header <= p
    ensures HeaderSays(p, req, flags)
  {
    assert header == p[..HEADER] == header[2 := p[2]];
    hide HeaderSays;
    HeaderMarked(p, header, req, flags);
    assert flags + (p[2] as int - header[2]) * 256 == flags;
  }

  // No name has an empty label.
  predicate NamesWellFormed(qs: seq<Question>, items: seq<Item>) {
    && (forall i :: 0 <= i < |qs| ==> WellFormed(qs[i].name))
    && (forall i :: 0 <= i < |items| ==> WellFormed(items[i].name) && (items[i].isName ==> WellFormed(items[i].data)))
  }

  // What the questions and records take at most, without any compression
  function QuestionsRoom(qs: seq<Question>): nat {
    if qs == [] then 0 else QuestionsRoom(qs[..|qs| - 1]) + |qs[|qs| - 1].name| + 6
  }

  function ItemsRoom(items: seq<Item>): nat {
    if items == [] then 0 else ItemsRoom(items[..|items| - 1]) + ItemRoom(items[|items| - 1])
  }

  predicate NamesShort(qs: seq<Question>, items: seq<Item>) {
    && (forall i :: 0 <= i < |qs| ==> |qs[i].name| <= MAX_NAME && ShortLabels(qs[i].name))
    && (forall i :: 0 <= i < |items| ==> ItemShort(items[i]))
  }

  lemma {:induction false} QuestionsRoomGrows(qs: seq<Question>, i: nat)
    requires i <= |qs|
    ensures QuestionsRoom(qs[..i]) <= QuestionsRoom(qs)
    decreases |qs|
  {
    if i < |qs| {
      var init := qs[..|qs| - 1];
      QuestionsRoomGrows(init, i);
      assert init[..i] == qs[..i];
    } else {
      assert qs[..i] == qs;
    }
  }

  lemma {:induction false} ItemsRoomGrows(items: seq<Item>, i: nat)
    requires i <= |items|
    ensures ItemsRoom(items[..i]) <= ItemsRoom(items)
    decreases |items|
  {
    if i < |items| {
      var init := items[..|items| - 1];
      ItemsRoomGrows(init, i);
      assert init[..i] == items[..i];
    } else {
      assert items[..i] == items;
    }
  }

  lemma QuestionsRoomNext(qs: seq<Question>, i: nat)
    requires i < |qs|
    ensures QuestionsRoom(qs[..i + 1]) == QuestionsRoom(qs[..i]) + |qs[i].name| + 6 <= QuestionsRoom(qs)
  {
    assert qs[..i + 1][..i] == qs[..i];
    QuestionsRoomGrows(qs, i + 1);
  }

  lemma ItemsRoomNext(items: seq<Item>, i: nat)
    requires i < |items|
    ensures ItemsRoom(items[..i + 1]) == ItemsRoom(items[..i]) + ItemRoom(items[i]) <= ItemsRoom(items)
  {
    assert items[..i + 1][..i] == items[..i];
    ItemsRoomGrows(items, i + 1);
  }

  lemma QuestionsNone(p: seq<Byte>, start: nat)
    ensures QuestionsAt(p, start, [], []) && QuestionsRoom([]) == 0
  {
  }

  lemma ItemsNone(p: seq<Byte>, start: nat)
    ensures ItemsAt(p, start, [], []) && ItemsRoom([]) == 0
  {
  }

  method WriteQuestions(w: NameWriter, qs: seq<Question>) returns (r: int, ghost ws: seq<Written>)
    requires w.Valid() && w.gap >= |w.buf| && forall i :: 0 <= i < |qs| ==> QuestionFits(qs[i])
    modifies w
    ensures r == 0 || r == -1 || r == -2 || r == -3
    ensures r == 0 ==>
              w.Valid() && w.gap >= |w.buf| && old(w.buf) <= w.buf && |w.buf| <= |old(w.buf)| + QuestionsRoom(qs)
    ensures r == 0 && NamesWellFormed(qs, []) ==>
              QuestionsAt(w.buf, |old(w.buf)|, qs, ws) && QuestionsEnd(|old(w.buf)|, ws) == |w.buf|
    ensures NamesShort(qs, []) && |old(w.buf)| + QuestionsRoom(qs) <= w.capacity ==> r == 0
    ensures Follows(PlaceQuestions(Values(old(w.table)), |old(w.buf)|, w.capacity, qs), r, w)
  {
    hide PlaceQuestion, Values;
    hide TableOk, LogOk, WellFormed, ShortLabels, QuestionAt, QuestionsAt, NameWriter.Valid, QuestionsRoom,
         QuestionFits;
    ws := [];
    QuestionsNone(w.buf, |w.buf|);
    assert qs[..0] == [];
    for i := 0 to |qs|
      invariant w.Valid() && w.gap >= |w.buf| && old(w.buf) <= w.buf && |w.buf| <= |old(w.buf)| + QuestionsRoom(qs[..i])
      invariant PlaceQuestions(Values(w.table), |w.buf|, w.capacity, qs[i..]) ==
                  PlaceQuestions(Values(old(w.table)), |old(w.buf)|, w.capacity, qs)
      invariant NamesWellFormed(qs, []) ==>
                  QuestionsAt(w.buf, |old(w.buf)|, qs[..i], ws) && QuestionsEnd(|old(w.buf)|, ws) == |w.buf|
    {
      ghost var b := w.buf;
      QuestionsRoomNext(qs, i);
      assert qs[i..][0] == qs[i] && qs[i..][1..] == qs[i + 1..];
      assert qs[..i + 1] == qs[..i] + [qs[i]];
      ghost var wr;
      r, wr := WriteQuestion(w, qs[i]);
      if r < 0 {
        return;
      }
      if NamesWellFormed(qs, []) {
        QuestionsGrow(b, w.buf, |old(w.buf)|, qs[..i], ws);
        QuestionEnd(w.buf, qs[i], wr);
        QuestionsMore(w.buf, |old(w.buf)|, qs[..i], ws, qs[i], wr);
      }
      ws := ws + [wr];
    }
    assert qs[..|qs|] == qs;
    r := 0;
  }

  lemma QuestionEnd(p: seq<Byte>, q: Question, w: Written)
    requires QuestionAt(p, q, w, |p|)
    ensures QuestionAt(p, q, w, w.end + 4) && w.end + 4 == |p|
  {
    hide WrittenOk;
  }

  method WriteItems(w: NameWriter, items: seq<Item>) returns (ok: bool, ghost pls: seq<Placed>)
    requires w.Valid() && w.gap >= |w.buf| && forall i :: 0 <= i < |items| ==> ItemFits(items[i])
    modifies w
    ensures ok ==> w.Valid() && w.gap >= |w.buf| && old(w.buf) <= w.buf && |w.buf| <= |old(w.buf)| + ItemsRoom(items)
    ensures ok && NamesWellFormed([], items) ==>
              ItemsAt(w.buf, |old(w.buf)|, items, pls) && ItemsEnd(|old(w.buf)|, pls) == |w.buf|
    ensures NamesShort([], items) && |old(w.buf)| + ItemsRoom(items) <= w.capacity ==> ok
    ensures Follows(PlaceItems(Values(old(w.table)), |old(w.buf)|, w.capacity, items), if ok then 0 else -3, w)
  {
    hide PlaceItem, Values;
    hide TableOk, LogOk, WellFormed, ShortLabels, ItemAt, ItemsAt, NameWriter.Valid, ItemShort, ItemRoom, ItemsRoom,
         ItemFits;
    pls := [];
    ItemsNone(w.buf, |w.buf|);
    assert items[..0] == [];
    for i := 0 to |items|
      invariant w.Valid() && w.gap >= |w.buf| && old(w.buf) <= w.buf && |w.buf| <= |old(w.buf)| + ItemsRoom(items[..i])
      invariant PlaceItems(Values(w.table), |w.buf|, w.capacity, items[i..]) ==
                  PlaceItems(Values(old(w.table)), |old(w.buf)|, w.capacity, items)
      invariant NamesWellFormed([], items) ==>
                  ItemsAt(w.buf, |old(w.buf)|, items[..i], pls) && ItemsEnd(|old(w.buf)|, pls) == |w.buf|
    {
      ghost var b := w.buf;
      ItemsRoomNext(items, i);
      assert items[i..][0] == items[i] && items[i..][1..] == items[i + 1..];
      assert items[..i + 1] == items[..i] + [items[i]];
      ghost var pl;
      ok, pl := WriteItem(w, items[i]);
      if !ok {
        return;
      }
      if NamesWellFormed([], items) {
        ItemsGrow(b, w.buf, |old(w.buf)|, items[..i], pls);
        ItemsMore(w.buf, |old(w.buf)|, items[..i], pls, items[i], pl);
      }
      pls := pls + [pl];
    }
    assert items[..|items|] == items;
    ok := true;
  }

  // The response bit and the error code are set in the flags of the request.
  function ResponseFlags(flags: nat, err: nat): (r: nat)
    requires flags < 0x10000 && err <= 15
    ensures 0x8000 <= r < 0x10000 && r / 16 % 0x800 == flags / 16 % 0x800
    ensures r % 16 == Or(flags % 16, err) && (flags % 16 == 0 ==> r % 16 == err)
  {
    var kept, code := flags / 16 % 0x800, Or(flags % 16, err);
    assert (0x8000 + kept * 16 + code) / 16 == 0x800 + kept;
    0x8000 + kept * 16 + code
  }

  // Or of two codes of four bits
  function Or(x: nat, y: nat): (r: nat)
    requires x <= 15 && y <= 15
    ensures r <= 15 && (x == 0 ==> r == y)
  {
    ((x as bv4) | (y as bv4)) as nat
  }

  /** j = 512; buf[2] |= 0x02: the first 512 bytes of the buffer are sent, whatever is in the part `left`
      behind what has been written. */
  function MarkTruncated(buf: seq<Byte>, left: seq<Byte>): (r: seq<Byte>)
    requires |buf| >= HEADER && |left| == UDP_LIMIT
    ensures |r| == UDP_LIMIT && r[2] == buf[2] + if buf[2] / 2 % 2 == 1 then 0 else 2
    ensures forall i :: 0 <= i < |r| && i != 2 ==> r[i] == if i < |buf| then buf[i] else left[i]
  {
    var b := if |buf| < UDP_LIMIT then buf + left[|buf|..] else buf[..UDP_LIMIT];
    b[2 := b[2] + if b[2] / 2 % 2 == 1 then 0 else 2]
  }

  // Without the mark the packet starts with what had been written.
  lemma TruncatedPrefix(header: seq<Byte>, b: seq<Byte>, p: seq<Byte>, left: seq<Byte>)
    requires header <= b <= p && |header| == HEADER && |left| == UDP_LIMIT
    ensures var r := MarkTruncated(p, left);
      r[..HEADER] == header[2 := r[2]] && (|b| <= UDP_LIMIT ==> b <= r[2 := header[2]])
  {
    assert forall i :: 0 <= i < HEADER ==> p[i] == b[i] == header[i];
    assert forall i :: 0 <= i < |b| ==> p[i] == b[i];
  }

  /** The questions are read back from a truncated response that has room for them. */
  lemma TruncatedRead(header: seq<Byte>, b: seq<Byte>, p: seq<Byte>, left: seq<Byte>, qs: seq<Question>,
                      ws: seq<Written>)
    requires header <= b <= p && |header| == HEADER && |left| == UDP_LIMIT && |b| <= UDP_LIMIT
    requires QuestionsAt(b, HEADER, qs, ws) && QuestionsEnd(HEADER, ws) == |b|
    ensures DecodeQuestions(MarkTruncated(p, left)[2 := header[2]], HEADER, |qs|) ==
              Some(Decoded(CanonQuestions(qs), |b|))
  {
    var r := MarkTruncated(p, left)[2 := header[2]];
    TruncatedPrefix(header, b, p, left);
    QuestionsGrow(b, r, HEADER, qs, ws);
    hide QuestionsAt, DecodeQuestions, CanonQuestions, MarkTruncated;
    QuestionsRead(r, HEADER, qs, ws, 0);
    assert qs[0..] == qs && ws[..0] == [];
  }

  // The header of the response
  function ResponseHeader(req: Request, err: nat): (r: seq<Byte>)
    requires RequestFits(req) && err <= 15
    ensures |r| == HEADER
  {
    HeaderBytes(req.(flags := ResponseFlags(req.flags, err)))
  }

  lemma ResponseHeaderSays(req: Request, err: nat)
    requires RequestFits(req) && err <= 15
    ensures HeaderSays(ResponseHeader(req, err), req, ResponseFlags(req.flags, err))
  {
    hide HeaderBytes, ResponseFlags;
    HeaderSaid(req.(flags := ResponseFlags(req.flags, err)));
  }

  // Only the bit for a truncated response is set.
  lemma MarkedSays(header: seq<Byte>, p: seq<Byte>, left: seq<Byte>, req: Request, flags: nat)
    requires |header| == HEADER && header <= p && |left| == UDP_LIMIT && HeaderSays(header, req, flags)
    ensures HeaderSays(MarkTruncated(p, left), req, flags + if flags / 0x200 % 2 == 1 then 0 else 0x200)
  {
    var r := MarkTruncated(p, left);
    TruncatedPrefix(header, p, p, left);
    HeaderMarked(r, header, req, flags);
    assert flags / 0x200 == header[2] as int / 2;
  }

  // The records of each section, one section behind the other, up to the end of the packet
  predicate SectionsRead(p: seq<Byte>, pos: nat, req: Request) {
    var a := DecodeItems(p, pos, Kinds(req.answer));
    && a.Some? && a.value.value == CanonItems(req.answer)
    && var n := DecodeItems(p, a.value.next, Kinds(req.authority));
       && n.Some? && n.value.value == CanonItems(req.authority)
       && DecodeItems(p, n.value.next, Kinds(req.additional)) == Some(Decoded(CanonItems(req.additional), |p|))
  }

  lemma {:induction false} DecodeSplit(p: seq<Byte>, pos: nat, a: seq<Item>, b: seq<Item>)
    requires DecodeItems(p, pos, Kinds(a + b)).Some?
    ensures var d, d1 := DecodeItems(p, pos, Kinds(a + b)).value, DecodeItems(p, pos, Kinds(a));
      && d1.Some?
      && var d2 := DecodeItems(p, d1.value.next, Kinds(b));
         && d2.Some? && d2.value.next == d.next && d.value == d1.value.value + d2.value.value
    decreases |a|
  {
    if a == [] {
      assert a + b == b;
    } else {
      assert (a + b)[1..] == a[1..] + b && (a + b)[0] == a[0];
      hide DecodeItem;
      assert Kinds(a + b)[1..] == Kinds(a[1..] + b) && Kinds(a)[1..] == Kinds(a[1..]);
      var it := DecodeItem(p, pos, a[0].isName);
      DecodeSplit(p, it.value.next, a[1..], b);
    }
  }

  lemma {:induction false} DecodeCount(p: seq<Byte>, pos: nat, kinds: seq<bool>)
    ensures var d := DecodeItems(p, pos, kinds); d.Some? ==> |d.value.value| == |kinds|
    decreases |kinds|
  {
    hide DecodeItem;
    if kinds != [] {
      var it := DecodeItem(p, pos, kinds[0]);
      if it.Some? {
        DecodeCount(p, it.value.next, kinds[1..]);
      }
    }
  }

  lemma CanonBoth(a: seq<Item>, b: seq<Item>)
    ensures CanonItems(a + b) == CanonItems(a) + CanonItems(b)
  {
    hide CanonItem, CanonItems;
    var both := CanonItems(a) + CanonItems(b);
    forall i | 0 <= i < |a + b| ensures CanonItems(a + b)[i] == both[i] {
      assert CanonItems(a + b)[i] == CanonItem((a + b)[i]);
      if i < |a| {
        assert both[i] == CanonItems(a)[i] == CanonItem(a[i]);
      } else {
        assert both[i] == CanonItems(b)[i - |a|] == CanonItem(b[i - |a|]);
      }
    }
  }

  lemma CanonApart(a: seq<Item>, b: seq<Item>, x: seq<Item>, y: seq<Item>)
    requires CanonItems(a + b) == x + y && |x| == |a|
    ensures x == CanonItems(a) && y == CanonItems(b)
  {
    CanonBoth(a, b);
    hide *;
    var c, d := CanonItems(a), CanonItems(b);
    assert x == (x + y)[..|a|] == (c + d)[..|a|] == c;
    assert y == (x + y)[|a|..] == (c + d)[|a|..] == d;
  }

  // Two runs of records are read one after the other.
  lemma ItemsApart(p: seq<Byte>, pos: nat, a: seq<Item>, b: seq<Item>, end: nat)
    requires DecodeItems(p, pos, Kinds(a + b)) == Some(Decoded(CanonItems(a + b), end))
    ensures var d := DecodeItems(p, pos, Kinds(a));
      && d.Some? && d.value.value == CanonItems(a)
      && DecodeItems(p, d.value.next, Kinds(b)) == Some(Decoded(CanonItems(b), end))
  {
    DecodeSplit(p, pos, a, b);
    DecodeCount(p, pos, Kinds(a));
    hide DecodeItems, Kinds, CanonItems;
    var d := DecodeItems(p, pos, Kinds(a)).value;
    CanonApart(a, b, d.value, DecodeItems(p, d.next, Kinds(b)).value.value);
  }

  lemma SectionsApart(p: seq<Byte>, pos: nat, req: Request)
    requires DecodeItems(p, pos, Kinds(Items(req))) == Some(Decoded(CanonItems(Items(req)), |p|))
    ensures SectionsRead(p, pos, req)
  {
    hide DecodeItems, Kinds, CanonItems;
    ItemsApart(p, pos, req.answer + req.authority, req.additional, |p|);
    var d := DecodeItems(p, pos, Kinds(req.answer + req.authority)).value;
    ItemsApart(p, pos, req.answer, req.authority, d.next);
  }

  // The header, and with no empty labels all the questions and all the records
  predicate ReadsBack(req: Request, flags: nat, bytes: seq<Byte>) {
    && HeaderSays(bytes, req, flags)
    && (NamesWellFormed(req.questions, Items(req)) ==>
          var d := DecodeQuestions(bytes, HEADER, |req.questions|);
          && d.Some? && d.value.value == CanonQuestions(req.questions)
          && SectionsRead(bytes, d.value.next, req))
  }

  // The marked header, and all the questions if there is room for them
  predicate ReadsCut(req: Request, flags: nat, bytes: seq<Byte>)
    requires flags < 0x10000
  {
    var qs := req.questions;
    && |bytes| == UDP_LIMIT && HeaderSays(bytes, req, flags + if flags / 0x200 % 2 == 1 then 0 else 0x200)
    && (NamesWellFormed(qs, []) && NamesShort(qs, []) && HEADER + QuestionsRoom(qs) <= UDP_LIMIT ==>
          var d := DecodeQuestions(bytes[2 := flags / 256], HEADER, |qs|);
          d.Some? && d.value.value == CanonQuestions(qs))
  }

  // How far the whole response reaches
  function Reach(req: Request): Layout {
    var q := PlaceQuestions([], HEADER, BUF_LEN, req.questions);
    if q.Bad? then q else PlaceItems(q.known, q.end, BUF_LEN, Items(req))
  }

  /** evdns_server_request_format_response. `left` is what the buffer holds behind the questions, or behind
      everything if all the records were written. */
  method FormatResponse(req: Request, err: int, left: seq<Byte>) returns (r: Response)
    requires RequestFits(req) && |left| == UDP_LIMIT
    ensures err < 0 || err > 15 ==> r == Failed(-1)
    ensures r.Failed? ==> r.code == -1 || r.code == -2
    ensures r.Whole? ==>
              0 <= err <= 15 && |r.bytes| <= UDP_LIMIT && ReadsBack(req, ResponseFlags(req.flags, err), r.bytes)
    ensures r.Truncated? ==> 0 <= err <= 15 && ReadsCut(req, ResponseFlags(req.flags, err), r.bytes)
    ensures 0 <= err <= 15 ==>
              var q, p := PlaceQuestions([], HEADER, BUF_LEN, req.questions), Reach(req);
              && (r.Failed? <==> q.Bad? && q.code != -3) && (r.Failed? ==> r.code == q.code)
              && (r.Whole? <==> p.At? && p.end <= UDP_LIMIT) && (r.Whole? ==> |r.bytes| == p.end)
    ensures 0 <= err <= 15 && NamesShort(req.questions, []) ==>
              (HEADER + QuestionsRoom(req.questions) <= BUF_LEN ==> !r.Failed?)
    ensures 0 <= err <= 15 && NamesShort(req.questions, Items(req)) ==>
              (HEADER + QuestionsRoom(req.questions) + ItemsRoom(Items(req)) <= UDP_LIMIT ==> r.Whole?)
  {
    if err < 0 || err > 15 {
      return Failed(-1);
    }
    var qs, items := req.questions, Items(req);
    hide Items, ResponseHeader, NameWriter.Valid, QuestionsAt, ItemsAt, NamesWellFormed, NamesShort, QuestionsRoom,
         ItemsRoom, MarkTruncated, ReadsBack, ReadsCut, PlaceQuestions, PlaceItems, HeaderSays, ResponseFlags;
    var w := new NameWriter(BUF_LEN);
    var header, flags := ResponseHeader(req, err), ResponseFlags(req.flags, err);
    ResponseHeaderSays(req, err);
    assert Values(w.table) == [];
    var _ := w.Append(header);
    assert w.buf == header;
    NamesApart(qs, items);
    var code, ws := WriteQuestions(w, qs);
    if code == -1 || code == -2 {
      return Failed(code);
    }
    if code == -3 {
      CutShort(req, header, flags, left);
      return Truncated(MarkTruncated(header, left));
    }
    var b := w.buf;
    var done, pls := WriteItems(w, items);
    var kept := if done then w.buf else b;
    if !done || |w.buf| > UDP_LIMIT {
      CutBehind(req, header, flags, b, kept, left, ws);
      return Truncated(MarkTruncated(kept, left));
    }
    AllThere(req, header, flags, b, w.buf, ws, pls);
    return Whole(w.buf);
  }

  lemma AllThere(req: Request, header: seq<Byte>, flags: nat, b: seq<Byte>, p: seq<Byte>, ws: seq<Written>,
                 pls: seq<Placed>)
    requires header <= b <= p && |header| == HEADER && HeaderSays(header, req, flags)
    requires NamesWellFormed(req.questions, []) ==>
               QuestionsAt(b, HEADER, req.questions, ws) && QuestionsEnd(HEADER, ws) == |b|
    requires NamesWellFormed([], Items(req)) ==> ItemsAt(p, |b|, Items(req), pls) && ItemsEnd(|b|, pls) == |p|
    ensures ReadsBack(req, flags, p)
  {
    hide NamesWellFormed, QuestionsAt, ItemsAt, DecodeQuestions, DecodeItems, CanonQuestions, CanonItems, Kinds, Items,
         SectionsRead, HeaderSays;
    HeaderKept(p, header, req, flags);
    NamesApart(req.questions, Items(req));
    if NamesWellFormed(req.questions, Items(req)) {
      ResponseRead(b, p, req.questions, ws, Items(req), pls);
      SectionsApart(p, |b|, req);
    }
  }

  // The questions did not fit into the buffer, so there is no room for them in the packet either.
  lemma CutShort(req: Request, header: seq<Byte>, flags: nat, left: seq<Byte>)
    requires |header| == HEADER && |left| == UDP_LIMIT && flags < 0x10000 && HeaderSays(header, req, flags)
             && !(NamesShort(req.questions, []) && HEADER + QuestionsRoom(req.questions) <= BUF_LEN)
    ensures ReadsCut(req, flags, MarkTruncated(header, left))
  {
    MarkedSays(header, header, left, req, flags);
    hide HeaderSays;
  }

  lemma CutBehind(req: Request, header: seq<Byte>, flags: nat, b: seq<Byte>, p: seq<Byte>, left: seq<Byte>,
                  ws: seq<Written>)
    requires header <= b <= p && |header| == HEADER && |left| == UDP_LIMIT && flags < 0x10000
             && HeaderSays(header, req, flags)
             && |b| <= HEADER + QuestionsRoom(req.questions)
    requires NamesWellFormed(req.questions, []) ==>
               QuestionsAt(b, HEADER, req.questions, ws) && QuestionsEnd(HEADER, ws) == |b|
    ensures ReadsCut(req, flags, MarkTruncated(p, left))
  {
    MarkedSays(header, p, left, req, flags);
    assert header[2] == flags / 256;
    hide QuestionsAt, DecodeQuestions, CanonQuestions, NamesWellFormed, QuestionsRoom, NamesShort, HeaderSays;
    if NamesWellFormed(req.questions, []) && |b| <= UDP_LIMIT {
      TruncatedRead(header, b, p, left, req.questions, ws);
    }
  }

  lemma NamesApart(qs: seq<Question>, items: seq<Item>)
    ensures NamesWellFormed(qs, items) ==> NamesWellFormed(qs, []) && NamesWellFormed([], items)
    ensures NamesShort(qs, items) ==> NamesShort(qs, []) && NamesShort([], items)
  {
  }

  /** The questions and the records that have been written are read back. */
  lemma ResponseRead(b: seq<Byte>, p: seq<Byte>, qs: seq<Question>, ws: seq<Written>, items: seq<Item>,
                     pls: seq<Placed>)
    requires b <= p && QuestionsAt(b, HEADER, qs, ws) && QuestionsEnd(HEADER, ws) == |b|
    requires ItemsAt(p, |b|, items, pls) && ItemsEnd(|b|, pls) == |p|
    ensures DecodeQuestions(p, HEADER, |qs|) == Some(Decoded(CanonQuestions(qs), |b|))
    ensures DecodeItems(p, |b|, Kinds(items)) == Some(Decoded(CanonItems(items), |p|))
  {
    QuestionsGrow(b, p, HEADER, qs, ws);
    hide QuestionsAt, ItemsAt, DecodeQuestions, DecodeItems, CanonQuestions, CanonItems, Kinds;
    QuestionsRead(p, HEADER, qs, ws, 0);
    ItemsRead(p, |b|, items, pls, 0);
    assert qs[0..] == qs && items[0..] == items && ws[..0] == [] && pls[..0] == [];
  }

  /** Records with a name that has been written before take two bytes for it. */
  lemma {:induction false} KnownNames(known: seq<seq<Byte>>, at: nat, cap: nat, items: seq<Item>, n: nat)
    requires forall i :: 0 <= i < |items| ==>
               !items[i].isName && items[i].name in known && |items[i].name| <= MAX_NAME && |items[i].data| == n
    requires at + |items| * (12 + n) <= cap
    ensures PlaceItems(known, at, cap, items) == At(at + |items| * (12 + n), known)
    decreases |items|
  {
    if items != [] {
      var rest := |items| - 1;
      assert |items| * (12 + n) == 12 + n + rest * (12 + n) && rest * (12 + n) >= 0;
      assert PlaceItem(known, at, cap, items[0]) == At(at + 12 + n, known);
      KnownNames(known, at + 12 + n, cap, items[1..], n);
    }
  }

  // A question for a name of 60 bytes, and twenty addresses for it
  function Twenty(): Request {
    var name: seq<Byte> := seq(60, _ => 97);
    Request(1, 0, [Question(name, 1, 1)], seq(20, _ => Item(name, 1, 1, 600, false, [127, 0, 0, 1])), [], [])
  }

  /** A response that is whole thanks to compression alone */
  lemma CompressionFits()
    ensures RequestFits(Twenty()) && Reach(Twenty()).At? && Reach(Twenty()).end == 398
    ensures HEADER + QuestionsRoom(Twenty().questions) + ItemsRoom(Items(Twenty())) > UDP_LIMIT
  {
    var req := Twenty();
    var name, items := req.questions[0].name, Items(req);
    assert items == req.answer;
    assert |name| == 60 && forall i :: 0 <= i < |name| ==> name[i] == 97;
    assert FirstDot(name).None?;
    assert Remember([], name) == [name];
    assert PlaceName([], HEADER, BUF_LEN, name) == At(HEADER + 62, [name]);
    var q := PlaceQuestions([], HEADER, BUF_LEN, req.questions);
    assert PlaceQuestion([], HEADER, BUF_LEN, req.questions[0]) == At(HEADER + 66, [name]);
    assert req.questions[1..] == [] && PlaceQuestions([name], HEADER + 66, BUF_LEN, []) == At(HEADER + 66, [name]);
    assert q == At(HEADER + 66, [name]);
    KnownNames([name], HEADER + 66, BUF_LEN, items, 4);
    RoomAtLeast(items);
  }

  lemma {:induction false} RoomAtLeast(items: seq<Item>)
    requires forall i :: 0 <= i < |items| ==> |items[i].name| == 60
    ensures ItemsRoom(items) >= 60 * |items|
  {
    if items != [] {
      RoomAtLeast(items[..|items| - 1]);
    }
  }
}
