/**
 The query the resolver sends: one question, whose name is written without a compression table.
 */
module DnsQuery {
  import opened Chunks
  import opened DnsNames
  import opened DnsWriter
  import opened DnsResponse
  import opened Wrappers

  // The labels of the name one after the other, and the terminator if it is not there yet
  function PlainName(name: seq<Byte>): (r: seq<Byte>)
    requires ShortLabels(name)
    ensures 0 < |r| <= |name| + 2
    decreases |name|
  {
    var dot := FirstDot(name);
    if dot.Some? then [dot.value] + name[..dot.value] + PlainName(name[dot.value + 1..])
    else if name == [] then [0]
    else [|name|] + name + [0]
  }

  function Separated(out: seq<Byte>, l: Label): (r: seq<Byte>) {
    (if out != [] then out + [DOT] else out) + l
  }

  // A label, if there is room for it
  lemma ParseLabel(p: seq<Byte>, pos: nat, l: Label, out: seq<Byte>, cap: nat)
    requires 0 < |l| <= 63 && Holds(p, pos, [|l|] + l)
    ensures ParseFrom(p, pos, 0, None, out, cap) ==
            if |Separated(out, l)| < cap then ParseFrom(p, pos + 1 + |l|, 0, None, Separated(out, l), cap) else None
  {
    HoldsParts(p, pos, [|l|], l);
    assert p[pos] == p[pos..pos + 1][0] == |l|;
  }

  lemma ParseRoot(p: seq<Byte>, pos: nat, out: seq<Byte>, cap: nat)
    requires Holds(p, pos, [0])
    ensures ParseFrom(p, pos, 0, None, out, cap) == if |out| < cap then Some(Parsed(out, pos + 1)) else None
  {
    assert p[pos] == p[pos..pos + 1][0] == 0;
  }

  lemma PlainFirst(name: seq<Byte>, dot: nat)
    requires ShortLabels(name) && FirstDot(name) == Some(dot)
    ensures var l, rest := name[..dot], name[dot + 1..];
      && |l| <= 63 && ShortLabels(rest) && PlainName(name) == [|l|] + l + PlainName(rest)
      && (WellFormed(name) <==> l != [] && WellFormed(rest))
      && Labels(name) == [l] + Labels(rest)
  {
  }

  lemma PlainLast(name: seq<Byte>, out: seq<Byte>)
    requires ShortLabels(name) && FirstDot(name).None?
    ensures |name| <= 63 && PlainName(name) == if name == [] then [0] else [|name|] + name + [0]
    ensures AddLabels(out, Labels(name)) == if name == [] then out else Separated(out, name)
  {
    assert [name][1..] == [];
  }

  lemma AddLabelsFirst(out: seq<Byte>, l: Label, ls: seq<Label>)
    ensures AddLabels(out, [l] + ls) == AddLabels(Separated(out, l), ls)
  {
    assert ([l] + ls)[1..] == ls;
  }

  lemma {:induction false} PlainParses(p: seq<Byte>, pos: nat, name: seq<Byte>, out: seq<Byte>, cap: nat)
    requires ShortLabels(name) && Holds(p, pos, PlainName(name))
    requires WellFormed(name) && |AddLabels(out, Labels(name))| < cap
    ensures ParseFrom(p, pos, 0, None, out, cap) == Some(Parsed(AddLabels(out, Labels(name)), pos + |PlainName(name)|))
    decreases |name|
  {
    hide *;
    var dot := FirstDot(name);
    if dot.Some? {
      PlainFirst(name, dot.value);
      var l, rest := name[..dot.value], name[dot.value + 1..];
      HoldsParts(p, pos, [|l|] + l, PlainName(rest));
      AddLabelsFirst(out, l, Labels(rest));
      PlainParses(p, pos + 1 + |l|, rest, Separated(out, l), cap);
      ParseLabel(p, pos, l, out, cap);
    } else if name == [] {
      PlainLast(name, out);
      ParseRoot(p, pos, out, cap);
    } else {
      PlainLast(name, out);
      HoldsParts(p, pos, [|name|] + name, [0]);
      ParseLabel(p, pos, name, out, cap);
      ParseRoot(p, pos + 1 + |name|, Separated(out, name), cap);
    }
  }

  lemma MalformedDot(name: seq<Byte>)
    requires !WellFormed(name)
    ensures FirstDot(name).Some?
  {
  }

  // With an empty label the parse stops early, if it does not fail.
  lemma {:induction false} PlainStops(p: seq<Byte>, pos: nat, name: seq<Byte>, out: seq<Byte>, cap: nat)
    requires ShortLabels(name) && Holds(p, pos, PlainName(name)) && !WellFormed(name)
    ensures var r := ParseFrom(p, pos, 0, None, out, cap); r.Some? ==> r.value.idx < pos + |PlainName(name)|
    decreases |name|
  {
    hide *;
    MalformedDot(name);
    var dot := FirstDot(name).value;
    PlainFirst(name, dot);
    var l, rest := name[..dot], name[dot + 1..];
    HoldsParts(p, pos, [|l|] + l, PlainName(rest));
    if l == [] {
      assert [|l|] + l == [0];
      ParseRoot(p, pos, out, cap);
    } else {
      PlainStops(p, pos + 1 + |l|, rest, Separated(out, l), cap);
      ParseLabel(p, pos, l, out, cap);
    }
  }

  /** A name written without a table is read back, to its end, exactly if it has no empty
      label before a dot. */
  lemma PlainRoundTrip(p: seq<Byte>, pos: nat, name: seq<Byte>)
    requires ShortLabels(name) && |name| <= MAX_NAME && Holds(p, pos, PlainName(name))
    ensures NameParse(p, pos, MAX_NAME + 1) == Some(Parsed(Canonical(name), pos + |PlainName(name)|)) <==>
              WellFormed(name)
  {
    if WellFormed(name) {
      LabelsJoin([], name);
      assert AddLabels([], Labels(name)) == Canonical(name);
      PlainParses(p, pos, name, [], MAX_NAME + 1);
    } else {
      PlainStops(p, pos, name, [], MAX_NAME + 1);
    }
  }

  // The name ".a" is read back as the root.
  lemma EmptyLabelIsLost()
    ensures var name := [DOT, 97];
              ShortLabels(name) && NameParse(PlainName(name), 0, MAX_NAME + 1) == Some(Parsed([], 1))
  {
    var name: seq<Byte> := [DOT, 97];
    assert name[1..] == [97] && FirstDot(name) == Some(0) && FirstDot([97]).None?;
    PlainFirst(name, 0);
    ParseRoot(PlainName(name), 0, [], MAX_NAME + 1);
  }

  // "a.b" as it goes over the wire
  lemma OnTheWire()
    ensures ShortLabels([97, 46, 98]) && PlainName([97, 46, 98]) == [1, 97, 1, 98, 0]
  {
    var name, last: seq<Byte> := [97, 46, 98], [98];
    assert name[1..][0] == 46 && FirstDot(name) == Some(1);
    assert name[2..] == last && last[1..] == [] && FirstDot(last).None?;
    PlainFirst(name, 1);
    assert PlainName(last) == [1, 98, 0];
  }

  // evdns_request_len
  function RequestLen(nameLen: nat): nat {
    96 + nameLen + 2 + 4
  }

  lemma {:induction false} PlainLength(name: seq<Byte>)
    requires ShortLabels(name)
    ensures |PlainName(name)| == |name| + if EndsInLabel(name) then 2 else 1
    decreases |name|
  {
    hide FirstDot;
    var dot := FirstDot(name);
    if dot.Some? {
      PlainLength(name[dot.value + 1..]);
      assert |PlainName(name)| == dot.value + 1 + |PlainName(name[dot.value + 1..])|;
    } else {
      assert |PlainName(name)| == |name| + if name == [] then 1 else 2;
    }
  }

  /** dnsname_to_labels without a table; the terminator goes behind the end of the buffer exactly if the
      labels of a name that does not end in a dot reach up to it. */
  method WritePlain(buf: seq<Byte>, bufLen: nat, name: seq<Byte>) returns (r: int, out: seq<Byte>)
    requires 0 !in name
    ensures r == -1 || r == -2 || r == |out|
    ensures r >= 0 ==> |name| <= MAX_NAME && ShortLabels(name) && out == buf + PlainName(name)
    ensures r >= 0 <==> |name| <= MAX_NAME && ShortLabels(name) && |buf| + |name| + 1 <= bufLen
    ensures r >= 0 ==> (|out| > bufLen <==> EndsInLabel(name) && |buf| + |name| + 1 == bufLen)
    ensures r < 0 && |buf| <= bufLen ==> |out| <= bufLen
  {
    out := buf;
    if |name| > MAX_NAME {
      return -2, out;
    }
    hide FirstDot;
    var rest := name;
    while true
      invariant |out| + |rest| == |buf| + |name| && 0 !in rest && (|buf| <= bufLen ==> |out| <= bufLen)
      invariant ShortLabels(name) <==> ShortLabels(rest)
      invariant ShortLabels(rest) ==> out + PlainName(rest) == buf + PlainName(name)
      decreases |rest|
    {
      var dot := FirstDot(rest);
      var l := if dot.Some? then rest[..dot.value] else rest;
      if |l| > 63 {
        return -1, out;
      }
      if |out| + |l| + 1 > bufLen {
        return -2, out;
      }
      ghost var was := out;
      out := out + ([|l|] + l);
      if dot.None? {
        break;
      }
      rest := rest[dot.value + 1..];
      if ShortLabels(rest) {
        AddAssoc(was, [|l|] + l, PlainName(rest));
      }
    }
    if out == [] || out[|out| - 1] != 0 {
      out := out + [0];
    }
    r := |out|;
    PlainLength(name);
  }

  const QUERY_FLAGS := 0x0100

  /** evdns_request_data_build: the question is read back from the query, up to the end of the
      query, exactly if no label before a dot is empty. A buffer of evdns_request_len bytes is large
      enough and nothing is written behind its end. */
  method BuildQuery(q: Question, transId: nat, bufLen: nat) returns (r: int, bytes: seq<Byte>)
    requires QuestionFits(q) && transId < 0x10000
    ensures r < 0 || r == |bytes|
    ensures r >= 0 ==>
              |bytes| >= HEADER && bytes[..HEADER] == HeaderBytes(Request(transId, QUERY_FLAGS, [q], [], [], []))
    ensures r >= 0 ==> HeaderSays(bytes, Request(transId, 0, [q], [], [], []), 0x0100)
    ensures r >= 0 ==>
              (DecodeQuestions(bytes, HEADER, 1) == Some(Decoded([CanonQuestion(q)], |bytes|)) <==> WellFormed(q.name))
    ensures r >= 0 ==> |q.name| <= 255 && ShortLabels(q.name)
    ensures |q.name| <= 255 && ShortLabels(q.name) && RequestLen(|q.name|) <= bufLen ==> r >= 0
    ensures |bytes| > bufLen <==>
              |q.name| <= 255 && ShortLabels(q.name) && EndsInLabel(q.name) && HEADER + |q.name| + 1 == bufLen
    ensures RequestLen(|q.name|) <= bufLen ==> |bytes| <= bufLen
  {
    var header := HeaderBytes(Request(transId, QUERY_FLAGS, [q], [], [], []));
    if HEADER > bufLen {
      return -1, [];
    }
    hide HeaderBytes, HeaderSays;
    r, bytes := WritePlain(header, bufLen, q.name);
    if r < 0 {
      return;
    }
    if r + 4 > bufLen {
      return -1, bytes;
    }
    bytes := bytes + QuestionFixed(q);
    r := |bytes|;
    HoldsBoth(header, PlainName(q.name), QuestionFixed(q));
    QueryRead(bytes, HEADER, q);
    QuerySays(bytes, header, q, transId);
  }

  lemma QuerySays(bytes: seq<Byte>, header: seq<Byte>, q: Question, transId: nat)
    requires transId < 0x10000 && header == HeaderBytes(Request(transId, QUERY_FLAGS, [q], [], [], []))
    requires header <= bytes
    ensures HeaderSays(bytes, Request(transId, 0, [q], [], [], []), 0x0100)
  {
    HeaderSaid(Request(transId, QUERY_FLAGS, [q], [], [], []));
    hide HeaderBytes;
    HeaderKept(bytes, header, Request(transId, 0, [q], [], [], []), QUERY_FLAGS);
  }

  lemma QueryRead(bytes: seq<Byte>, pos: nat, q: Question)
    requires QuestionFits(q) && ShortLabels(q.name) && |q.name| <= MAX_NAME && Holds(bytes, pos, PlainName(q.name))
    requires var e := pos + |PlainName(q.name)|; Holds(bytes, e, QuestionFixed(q)) && |bytes| == e + 4
    ensures DecodeQuestions(bytes, pos, 1) == Some(Decoded([CanonQuestion(q)], |bytes|)) <==> WellFormed(q.name)
  {
    hide *;
    var e := pos + |PlainName(q.name)|;
    PlainRoundTrip(bytes, pos, q.name);
    FixedHeld(bytes, e, q);
    DecodeOne(bytes, pos, q, e);
  }

  lemma HoldsBoth(b: seq<Byte>, x: seq<Byte>, y: seq<Byte>)
    ensures Holds(b + x + y, |b|, x) && Holds(b + x + y, |b| + |x|, y)
  {
    Laid(b, x, y, []);
    assert b + x + y + [] == b + x + y;
  }

  lemma FixedHeld(p: seq<Byte>, e: nat, q: Question)
    requires QuestionFits(q) && Holds(p, e, QuestionFixed(q))
    ensures e + 4 <= |p| && Get16(p, e) == q.kind && Get16(p, e + 2) == q.cls
  {
    hide Get16, Bytes16;
    HoldsParts(p, e, Bytes16(q.kind), Bytes16(q.cls));
    Held16(p, e, q.kind);
    Held16(p, e + 2, q.cls);
  }

  lemma DecodeOne(p: seq<Byte>, pos: nat, q: Question, e: nat)
    requires |p| == e + 4 && Get16(p, e) == q.kind && Get16(p, e + 2) == q.cls
    ensures DecodeQuestions(p, pos, 1) == Some(Decoded([CanonQuestion(q)], |p|)) <==>
              NameParse(p, pos, MAX_NAME + 1) == Some(Parsed(Canonical(q.name), e))
  {
    hide NameParse, ParseFrom, Get16, Canonical;
    var d := DecodeQuestion(p, pos);
    if d.Some? {
      assert DecodeQuestions(p, d.value.next, 0) == Some(Decoded([], d.value.next));
      assert [d.value.value] + [] == [d.value.value];
      assert DecodeQuestions(p, pos, 1) == Some(Decoded([d.value.value], d.value.next));
      assert [d.value.value] == [CanonQuestion(q)] <==> d.value.value == CanonQuestion(q) by {
        assert [d.value.value][0] == d.value.value && [CanonQuestion(q)][0] == CanonQuestion(q);
      }
    }
  }
}
