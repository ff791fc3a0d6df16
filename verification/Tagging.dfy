/**
 The tagged wire format: integers as nibbles behind a count, tags seven bits at a time, low bits
 first, and records made of a tag, a length and a payload.
 */
module Tagging {
  import opened Chunks
  import opened Wrappers

  datatype Number = Number(value: nat, len: nat)

  const U32 := 0x1_0000_0000
  const INT_MAX := 0x7fff_ffff

  lemma HoldsAt(p: seq<Byte>, at: nat, bytes: seq<Byte>, i: nat)
    requires Holds(p, at, bytes) && i < |bytes|
    ensures p[at + i] == bytes[i]
  {
    assert p[at..at + |bytes|][i] == p[at + i];
  }

  // ---- Integers ----

  function Pow16(k: nat): (r: nat)
    ensures r > 0
  {
    if k == 0 then 1 else 16 * Pow16(k - 1)
  }

  // The significant nibbles of a number, low ones first
  function Nibbles(n: nat): (r: seq<nat>)
    ensures forall i :: 0 <= i < |r| ==> r[i] < 16
    ensures n != 0 ==> r != []
  {
    if n == 0 then [] else [n % 16] + Nibbles(n / 16)
  }

  function Value(ns: seq<nat>): nat {
    if ns == [] then 0 else ns[0] + 16 * Value(ns[1..])
  }

  lemma {:induction false} NibblesValue(n: nat)
    ensures Value(Nibbles(n)) == n
  {
    if n != 0 {
      NibblesValue(n / 16);
      assert Nibbles(n)[1..] == Nibbles(n / 16);
    }
  }

  lemma {:induction false} NibblesBound(n: nat, k: nat)
    requires n < Pow16(k)
    ensures |Nibbles(n)| <= k
  {
    if n != 0 {
      NibblesBound(n / 16, k - 1);
    }
  }

  // How many nibbles are written
  function Width(n: nat): (k: nat)
    ensures k >= 1
  {
    if n == 0 then 1 else |Nibbles(n)|
  }

  // The nibble at position p of the encoding: the count less one, then the number, then padding
  function IntNibble(n: nat, p: nat): (r: nat)
    requires Width(n) <= 16
    ensures r < 16
  {
    if p == 0 then Width(n) - 1 else if p - 1 < |Nibbles(n)| then Nibbles(n)[p - 1] else 0
  }

  function IntBytes(n: nat): (r: seq<Byte>)
    requires Width(n) <= 16
    ensures |r| == Width(n) / 2 + 1
    ensures forall i :: 0 <= i < |r| ==> r[i] == 16 * IntNibble(n, 2 * i) + IntNibble(n, 2 * i + 1)
  {
    seq(Width(n) / 2 + 1, i requires 0 <= i < Width(n) / 2 + 1 => 16 * IntNibble(n, 2 * i) + IntNibble(n, 2 * i + 1))
  }

  // Even positions are high nibbles.
  function NibbleAt(data: seq<Byte>, p: nat): (r: nat)
    requires p / 2 < |data|
    ensures r < 16
  {
    if p % 2 == 0 then data[p / 2] / 16 else data[p / 2] % 16
  }

  lemma IntBytesAt(n: nat, p: nat)
    requires Width(n) <= 16 && p / 2 < |IntBytes(n)|
    ensures NibbleAt(IntBytes(n), p) == IntNibble(n, p)
  {
    hide IntNibble, Nibbles, Width, IntBytes;
    assert p == 2 * (p / 2) + p % 2;
    var i := p / 2;
    ByteNibbles(IntNibble(n, 2 * i), IntNibble(n, 2 * i + 1));
  }

  lemma ByteNibbles(a: nat, b: nat)
    requires a < 16 && b < 16
    ensures (16 * a + b) / 16 == a && (16 * a + b) % 16 == b
  {
  }

  // Two byte strings with the same nibbles
  lemma SameNibbles(a: seq<Byte>, b: seq<Byte>)
    requires |a| == |b| && forall p :: 0 <= p < 2 * |a| ==> NibbleAt(a, p) == NibbleAt(b, p)
    ensures a == b
  {
    forall i | 0 <= i < |a| ensures a[i] == b[i] {
      assert NibbleAt(a, 2 * i) == NibbleAt(b, 2 * i) && NibbleAt(a, 2 * i + 1) == NibbleAt(b, 2 * i + 1);
      assert 2 * i / 2 == i && (2 * i + 1) / 2 == i && 2 * i % 2 == 0 && (2 * i + 1) % 2 == 1;
    }
  }

  // The low or the high nibble of a byte replaced
  function WithNibble(b: Byte, low: bool, v: nat): (r: Byte)
    requires v < 16
    ensures r / 16 == (if low then b / 16 else v) && r % 16 == if low then v else b % 16
  {
    if low then b / 16 * 16 + v else v * 16 + b % 16
  }

  // One nibble of a byte string replaced
  function SetNibble(data: seq<Byte>, p: nat, v: nat): (r: seq<Byte>)
    requires p / 2 < |data| && v < 16
    ensures |r| == |data|
            && forall q :: 0 <= q < 2 * |data| ==> NibbleAt(r, q) == if q == p then v else NibbleAt(data, q)
  {
    var r := data[p / 2 := WithNibble(data[p / 2], p % 2 == 1, v)];
    assert forall q :: 0 <= q < 2 * |data| ==> NibbleAt(r, q) == if q == p then v else NibbleAt(data, q) by {
      forall q | 0 <= q < 2 * |data| ensures NibbleAt(r, q) == if q == p then v else NibbleAt(data, q) {
        OtherNibble(p, q);
      }
    }
    r
  }

  lemma OtherNibble(p: nat, q: nat)
    ensures p / 2 == q / 2 && p % 2 == q % 2 <==> p == q
  {
  }

  function Zeros(n: nat): (r: seq<Byte>)
    ensures |r| == n && forall q :: 0 <= q < 2 * n ==> NibbleAt(r, q) == 0
  {
    seq(n, _ => 0)
  }

  // The nibbles of the number at the positions from 1 on
  ghost predicate NibblesWritten(data: seq<Byte>, ns: seq<nat>, off: nat) {
    && 1 <= off <= |ns| + 1
    && forall q :: 0 <= q < 2 * |data| ==> NibbleAt(data, q) == if 1 <= q < off then ns[q - 1] else 0
  }

  /** The loop of ENCODE_INT_INTERNAL for a number of `size` bytes */
  method EncodeInt(number: nat, size: nat) returns (data: seq<Byte>)
    requires 1 <= size <= 8 && number < Pow16(2 * size)
    ensures Width(number) <= 16 && data == IntBytes(number)
  {
    NibblesBound(number, 2 * size);
    hide Pow16, SetNibble, Zeros, NibbleAt, IntBytes;
    var off, n := 1, number;
    data := Zeros(size + 1);
    ghost var ns := Nibbles(number);
    while n != 0
      invariant NibblesWritten(data, ns, off) && |data| == size + 1 && Nibbles(n) == ns[off - 1..]
      decreases n
    {
      assert Nibbles(n)[0] == n % 16 && Nibbles(n)[1..] == Nibbles(n / 16);
      data := SetNibble(data, off, n % 16);
      n := n / 16;
      off := off + 1;
    }
    assert |ns| == off - 1;
    hide NibblesWritten;
    var nibbles := if off > 2 then off - 2 else 0;
    IntBytesWritten(data, number, off, nibbles);
    data := SetNibble(data, 0, nibbles % 16);
    data := data[..(off + 1) / 2];
  }

  lemma IntBytesWritten(data: seq<Byte>, number: nat, off: nat, nibbles: nat)
    requires Width(number) <= 16 && NibblesWritten(data, Nibbles(number), off) && off == |Nibbles(number)| + 1
             && (off + 1) / 2 <= |data|
    requires nibbles == if off > 2 then off - 2 else 0
    ensures SetNibble(data, 0, nibbles % 16)[..(off + 1) / 2] == IntBytes(number)
  {
    var was := SetNibble(data, 0, nibbles % 16);
    hide SetNibble, IntBytes, NibbleAt;
    var data' := was[..(off + 1) / 2];
    assert |data'| == |IntBytes(number)|;
    forall p | 0 <= p < 2 * |data'| ensures NibbleAt(data', p) == NibbleAt(IntBytes(number), p) {
      WrittenAt(data, number, off, nibbles, p);
      NibblePrefix(was, |data'|, p);
    }
    hide NibblesWritten, Nibbles;
    SameNibbles(data', IntBytes(number));
  }

  lemma WrittenAt(data: seq<Byte>, number: nat, off: nat, nibbles: nat, p: nat)
    requires Width(number) <= 16 && NibblesWritten(data, Nibbles(number), off) && off == |Nibbles(number)| + 1
    requires nibbles == (if off > 2 then off - 2 else 0) && p < 2 * |IntBytes(number)| && p < 2 * |data| && data != []
    ensures NibbleAt(SetNibble(data, 0, nibbles % 16), p) == NibbleAt(IntBytes(number), p)
  {
    hide SetNibble, IntBytes, NibbleAt;
    IntBytesAt(number, p);
  }

  lemma NibblePrefix(data: seq<Byte>, n: nat, p: nat)
    requires n <= |data| && p / 2 < n
    ensures NibbleAt(data[..n], p) == NibbleAt(data, p)
  {
  }

  // ---- Reading an integer ----

  // The number in the nibbles from position p to position k
  function ReadNibbles(data: seq<Byte>, p: nat, k: nat): (r: nat)
    requires p <= k + 1 && k / 2 < |data|
    ensures r < Pow16(k + 1 - p)
    decreases k + 1 - p
  {
    if p > k then 0 else NibbleAt(data, p) + 16 * ReadNibbles(data, p + 1, k)
  }

  // decode_int_internal and decode_int64_internal
  function DecodeInt(buf: seq<Byte>, offset: nat, maxNibbles: nat): (r: Option<Number>)
    ensures r.Some? ==> 0 < r.value.len && offset + r.value.len <= |buf|
  {
    if |buf| <= offset then None
    else
      var nibbles := buf[offset] as int / 16 + 1;
      if nibbles > maxNibbles || nibbles / 2 + 1 > |buf| - offset then None
      else Some(Number(ReadNibbles(buf[offset..], 1, nibbles), nibbles / 2 + 1))
  }

  /** The loop of DECODE_INT_INTERNAL */
  method DecodeIntLoop(buf: seq<Byte>, offset: nat, maxNibbles: nat) returns (r: Option<Number>)
    ensures r == DecodeInt(buf, offset, maxNibbles)
  {
    if |buf| <= offset {
      return None;
    }
    var data := buf[offset..];
    var nibbles := data[0] as int / 16 + 1;
    if nibbles > maxNibbles || nibbles / 2 + 1 > |data| {
      return None;
    }
    var len, number: nat := nibbles / 2 + 1, 0;
    ghost var k: nat := nibbles;
    while nibbles > 0
      invariant 0 <= nibbles <= k && number == ReadNibbles(data, nibbles + 1, k)
    {
      number := number * 16;
      if nibbles % 2 == 1 {
        number := number + data[nibbles / 2] % 16;
      } else {
        number := number + data[nibbles / 2] / 16;
      }
      nibbles := nibbles - 1;
    }
    r := Some(Number(number, len));
  }

  lemma {:induction false} ReadsNibbles(data: seq<Byte>, n: nat, p: nat)
    requires Width(n) <= 16 && |IntBytes(n)| <= |data| && data[..|IntBytes(n)|] == IntBytes(n) && n > 0
             && 1 <= p <= Width(n) + 1
    ensures ReadNibbles(data, p, Width(n)) == Value(Nibbles(n)[p - 1..])
    decreases Width(n) + 1 - p
  {
    var k, ns := Width(n), Nibbles(n);
    if p <= k {
      ReadsNibbles(data, n, p + 1);
      assert ns[p - 1..][1..] == ns[p..];
      NibblePrefix(data, |IntBytes(n)|, p);
      IntBytesAt(n, p);
    }
  }

  /** An encoded integer is read back at any offset, whatever follows it. */
  lemma IntRoundTrip(buf: seq<Byte>, offset: nat, n: nat, maxNibbles: nat)
    requires maxNibbles <= 16 && n < Pow16(maxNibbles) && maxNibbles >= 1
    ensures Width(n) <= maxNibbles
    ensures Holds(buf, offset, IntBytes(n)) ==> DecodeInt(buf, offset, maxNibbles) == Some(Number(n, |IntBytes(n)|))
  {
    NibblesBound(n, maxNibbles);
    hide Pow16, Nibbles, Holds, IntBytes, DecodeInt;
    if Holds(buf, offset, IntBytes(n)) {
      hide Width;
      HeldFrom(buf, offset, IntBytes(n));
      ReadsCount(buf[offset..], n);
      ReadsValue(buf[offset..], n);
      DecodesAt(buf, offset, maxNibbles, Width(n));
    }
  }

  lemma DecodesAt(buf: seq<Byte>, offset: nat, maxNibbles: nat, k: nat)
    requires offset + k / 2 + 1 <= |buf| && buf[offset] as int / 16 + 1 == k <= maxNibbles
    ensures DecodeInt(buf, offset, maxNibbles) == Some(Number(ReadNibbles(buf[offset..], 1, k), k / 2 + 1))
  {
    hide ReadNibbles;
  }

  lemma HeldFrom(buf: seq<Byte>, offset: nat, bytes: seq<Byte>)
    requires Holds(buf, offset, bytes) && bytes != []
    ensures offset + |bytes| <= |buf| && buf[offset..][..|bytes|] == bytes && buf[offset..][0] == buf[offset]
  {
  }

  lemma ReadsCount(data: seq<Byte>, n: nat)
    requires Width(n) <= 16 && |IntBytes(n)| <= |data| && data[..|IntBytes(n)|] == IntBytes(n)
    ensures data[0] as int / 16 + 1 == Width(n)
  {
    IntBytesAt(n, 0);
    NibblePrefix(data, |IntBytes(n)|, 0);
  }

  lemma ReadsValue(data: seq<Byte>, n: nat)
    requires Width(n) <= 16 && |IntBytes(n)| <= |data| && data[..|IntBytes(n)|] == IntBytes(n)
    ensures ReadNibbles(data, 1, Width(n)) == n
  {
    if n == 0 {
      IntBytesAt(n, 1);
      NibblePrefix(data, |IntBytes(n)|, 1);
      hide IntBytes, NibbleAt;
      assert ReadNibbles(data, 1, 1) == NibbleAt(data, 1) + 16 * ReadNibbles(data, 2, 1);
    } else {
      hide IntBytes, NibbleAt, ReadNibbles;
      ReadsNibbles(data, n, 1);
      NibblesValue(n);
      assert Nibbles(n)[0..] == Nibbles(n);
    }
  }

  // ---- Tags ----

  // Seven bits at a time, the low ones first; the high bit says that more follow.
  function TagBytes(tag: nat): (r: seq<Byte>)
    ensures |r| >= 1
  {
    if tag < 128 then [tag] else [tag % 128 + 128] + TagBytes(tag / 128)
  }

  lemma TagFirstByte(t: nat)
    ensures TagBytes(t) == if t < 128 then [t] else [t % 128 + 128] + TagBytes(t / 128)
  {
  }

  /** The loop of evtag_encode_tag */
  method EncodeTag(tag: nat) returns (data: seq<Byte>)
    ensures data == TagBytes(tag)
  {
    data := [];
    var t := tag;
    while true
      invariant data + TagBytes(t) == TagBytes(tag)
      decreases t
    {
      hide TagBytes;
      TagFirstByte(t);
      var lower := t % 128;
      t := t / 128;
      if t != 0 {
        lower := lower + 128;
        AddAssoc(data, [lower], TagBytes(t));
      }
      data := data + [lower];
      if t == 0 {
        break;
      }
    }
  }

  // The source reads the memory behind what it pulled up if five bytes all announce another one:
  // that outcome is Beyond.
  datatype TagResult = TagIs(tag: nat, count: nat) | NoTag | Beyond

  const PULLED := 5

  function Shift(i: nat): nat
    requires i < PULLED
  {
    if i == 0 then 1 else if i == 1 then 128 else if i == 2 then 0x4000 else if i == 3 then 0x20_0000 else 0x1000_0000
  }

  // decode_tag_internal, from byte i on
  function DecodeTagFrom(buf: seq<Byte>, i: nat, number: nat): (r: TagResult)
    ensures r.TagIs? ==> i < r.count <= |buf| && r.count <= PULLED
    decreases PULLED - i
  {
    if i >= |buf| then NoTag
    else if i >= PULLED then Beyond
    else
      var number' := number + buf[i] as int % 128 * Shift(i) % U32;
      if buf[i] < 128 then TagIs(number', i + 1) else DecodeTagFrom(buf, i + 1, number')
  }

  function DecodeTag(buf: seq<Byte>): TagResult {
    DecodeTagFrom(buf, 0, 0)
  }

  // Five bytes that all announce another one, and more behind them
  predicate Overlong(buf: seq<Byte>) {
    |buf| > PULLED && forall i :: 0 <= i < PULLED ==> buf[i] >= 128
  }

  lemma {:induction false} BeyondFrom(buf: seq<Byte>, i: nat, number: nat)
    requires i <= PULLED
    ensures DecodeTagFrom(buf, i, number).Beyond? <==> |buf| > PULLED && forall k :: i <= k < PULLED ==> buf[k] >= 128
    decreases PULLED - i
  {
    if i < |buf| && i < PULLED {
      BeyondFrom(buf, i + 1, number + buf[i] as int % 128 * Shift(i) % U32);
    }
  }

  /** The memory behind what was pulled up is read exactly for an overlong tag. */
  lemma BeyondIsOverlong(buf: seq<Byte>)
    ensures DecodeTag(buf).Beyond? <==> Overlong(buf)
  {
    BeyondFrom(buf, 0, 0);
  }

  lemma TagCanBeOverlong()
    ensures DecodeTag([128, 128, 128, 128, 128, 0]).Beyond?
  {
    BeyondIsOverlong([128, 128, 128, 128, 128, 0]);
  }

  /** The loop of decode_tag_internal */
  method DecodeTagLoop(buf: seq<Byte>) returns (r: TagResult)
    ensures r == DecodeTag(buf)
  {
    var number: nat, count: nat := 0, 0;
    while count < |buf|
      invariant count <= PULLED && DecodeTag(buf) == DecodeTagFrom(buf, count, number)
    {
      if count == PULLED {
        return Beyond;
      }
      var lower := buf[count] as int;
      number := number + lower % 128 * Shift(count) % U32;
      count := count + 1;
      if lower < 128 {
        return TagIs(number, count);
      }
    }
    r := NoTag;
  }

  lemma {:induction false} TagRead(buf: seq<Byte>, i: nat, number: nat, t: nat)
    requires i < PULLED && number < Shift(i) && number + t * Shift(i) < U32 && Holds(buf, i, TagBytes(t))
    ensures DecodeTagFrom(buf, i, number) == TagIs(number + t * Shift(i), i + |TagBytes(t)|)
    decreases t
  {
    hide Shift, TagBytes, Holds, DecodeTagFrom;
    TagStep(buf, i, number, t);
    TagMore(buf, i, t);
    if t >= 128 {
      ShiftNext(i, t, number);
      TagRead(buf, i + 1, number + t % 128 * Shift(i), t / 128);
    }
  }

  lemma TagStep(buf: seq<Byte>, i: nat, number: nat, t: nat)
    requires i < PULLED && number + t * Shift(i) < U32 && Holds(buf, i, TagBytes(t))
    ensures DecodeTagFrom(buf, i, number) ==
            if t < 128 then TagIs(number + t * Shift(i), i + 1)
            else DecodeTagFrom(buf, i + 1, number + t % 128 * Shift(i))
  {
    TagFirst(buf, i, t);
    LowBits(i, t, number);
    hide Shift, TagBytes, Holds;
  }

  lemma TagMore(buf: seq<Byte>, i: nat, t: nat)
    requires Holds(buf, i, TagBytes(t))
    ensures if t < 128 then |TagBytes(t)| == 1
            else Holds(buf, i + 1, TagBytes(t / 128)) && |TagBytes(t)| == 1 + |TagBytes(t / 128)|
  {
    if t >= 128 {
      HoldsRest(buf, i, [t % 128 + 128], TagBytes(t / 128));
    }
  }

  lemma TagFirst(buf: seq<Byte>, i: nat, t: nat)
    requires Holds(buf, i, TagBytes(t))
    ensures i < |buf| && buf[i] as int % 128 == t % 128 && (buf[i] < 128 <==> t < 128)
  {
    HoldsAt(buf, i, TagBytes(t), 0);
  }

  lemma HoldsRest(p: seq<Byte>, at: nat, a: seq<Byte>, b: seq<Byte>)
    requires Holds(p, at, a + b)
    ensures Holds(p, at + |a|, b)
  {
    HoldsParts(p, at, a, b);
  }

  lemma LowBits(i: nat, t: nat, number: nat)
    requires i < PULLED && number + t * Shift(i) < U32
    ensures t % 128 * Shift(i) % U32 == t % 128 * Shift(i)
    ensures t < 128 ==> t % 128 == t
  {
    hide Shift;
    MulLe(t % 128, t, Shift(i));
  }

  lemma MulLe(a: nat, b: nat, k: nat)
    requires a <= b
    ensures a * k <= b * k
  {
  }

  lemma ShiftNext(i: nat, t: nat, number: nat)
    requires i < PULLED && t >= 128 && number < Shift(i) && number + t * Shift(i) < U32
    ensures i + 1 < PULLED && Shift(i + 1) == 128 * Shift(i)
    ensures var number' := number + t % 128 * Shift(i);
              number' < Shift(i + 1) && number' + t / 128 * Shift(i + 1) == number + t * Shift(i)
  {
    assert t == 128 * (t / 128) + t % 128;
    MulLe(128, t, Shift(i));
  }

  /** An encoded tag is read back, whatever follows it. */
  lemma TagRoundTrip(buf: seq<Byte>, tag: nat)
    requires tag < U32 && Holds(buf, 0, TagBytes(tag))
    ensures DecodeTag(buf) == TagIs(tag, |TagBytes(tag)|)
  {
    TagRead(buf, 0, 0, tag);
  }

  // ---- Records ----

  lemma Width32(n: nat)
    ensures n < U32 ==> Width(n) <= 8
  {
    Pow16Is();
    if n < U32 {
      NibblesBound(n, 8);
    }
  }

  lemma Pow16Is()
    ensures Pow16(8) == U32 && Pow16(16) == U32 * U32
  {
    assert Pow16(4) == 0x10000;
    assert Pow16(8) == U32;
    assert Pow16(12) == U32 * 0x10000;
  }

  // evtag_encode_int for a length
  function LengthBytes(n: nat): (r: seq<Byte>)
    requires n < U32
    ensures |r| >= 1
  {
    Width32(n);
    IntBytes(n)
  }

  datatype Record = Record(tag: nat, data: seq<Byte>)

  predicate RecordFits(r: Record) {
    r.tag < U32 && |r.data| < U32
  }

  function RecordBytes(r: Record): seq<Byte>
    requires RecordFits(r)
  {
    TagBytes(r.tag) + (LengthBytes(|r.data|) + r.data)
  }

  // What evtag_unmarshal_header finds, and what it leaves of the buffer
  datatype Header = HeaderIs(tag: nat, len: nat, rest: seq<Byte>) | BadHeader(rest: seq<Byte>) | HeaderBeyond

  function HeaderOf(bytes: seq<Byte>): (h: Header)
    ensures h.HeaderIs? ==> h.len <= |h.rest|
  {
    match DecodeTag(bytes)
    case NoTag => BadHeader(bytes)
    case Beyond => HeaderBeyond
    case TagIs(tag, count) =>
      var rest := bytes[count..];
      var n := DecodeInt(rest, 0, 8);
      if n.None? then BadHeader(rest)
      else if |rest| - n.value.len < n.value.value then BadHeader(rest[n.value.len..])
      else HeaderIs(tag, n.value.value, rest[n.value.len..])
  }

  lemma HeaderBound(bytes: seq<Byte>)
    ensures var h := HeaderOf(bytes); h.HeaderIs? ==> h.len < U32
  {
    Pow16Is();
    hide ReadNibbles;
    var t := DecodeTag(bytes);
    if t.TagIs? {
      DecodeIntBound(bytes[t.count..], 0, 8);
    }
  }

  lemma DecodeIntBound(buf: seq<Byte>, offset: nat, maxNibbles: nat)
    ensures var r := DecodeInt(buf, offset, maxNibbles); r.Some? ==> r.value.value < Pow16(maxNibbles)
  {
    if DecodeInt(buf, offset, maxNibbles).Some? {
      Pow16Grows(buf[offset] as int / 16 + 1, maxNibbles);
    }
  }

  lemma {:induction false} Pow16Grows(a: nat, b: nat)
    requires a <= b
    ensures Pow16(a) <= Pow16(b)
    decreases b
  {
    if a < b {
      Pow16Grows(a, b - 1);
    }
  }

  lemma HoldsFirst(a: seq<Byte>, b: seq<Byte>)
    ensures Holds(a + b, 0, a) && (a + b)[|a|..] == b
  {
  }

  /** The header of a record is read back, and the payload is what is left. */
  lemma HeaderRoundTrip(r: Record, more: seq<Byte>)
    requires RecordFits(r)
    ensures HeaderOf(RecordBytes(r) + more) == HeaderIs(r.tag, |r.data|, r.data + more)
  {
    var bytes, tag, len := RecordBytes(r) + more, TagBytes(r.tag), LengthBytes(|r.data|);
    var rest := len + (r.data + more);
    Regroup(tag, len, r.data, more);
    HoldsFirst(tag, rest);
    HoldsFirst(len, r.data + more);
    Pow16Is();
    hide Holds, TagBytes, LengthBytes, DecodeInt, DecodeTag, Pow16;
    TagRoundTrip(bytes, r.tag);
    LengthRead(rest, |r.data|);
  }

  lemma Regroup(a: seq<Byte>, b: seq<Byte>, c: seq<Byte>, d: seq<Byte>)
    ensures a + (b + c) + d == a + (b + (c + d))
  {
    AddAssoc(a, b + c, d);
    AddAssoc(b, c, d);
  }

  lemma LengthRead(buf: seq<Byte>, n: nat)
    requires n < U32 && Holds(buf, 0, LengthBytes(n))
    ensures DecodeInt(buf, 0, 8) == Some(Number(n, |LengthBytes(n)|))
  {
    Pow16Is();
    IntRoundTrip(buf, 0, n, 8);
  }

  // An unsigned 32-bit number returned as an int
  function AsInt(n: nat): int
    requires n < U32
  {
    if n <= INT_MAX then n else n - U32
  }

  // What evtag_consume leaves of the buffer, and whether it succeeds. A length beyond INT_MAX is
  // negative as an int: as a size to drain it is everything.
  datatype Consumed = Consumed(ok: bool, rest: seq<Byte>) | ConsumedBeyond

  function Consume(bytes: seq<Byte>): Consumed {
    HeaderBound(bytes);
    match HeaderOf(bytes)
    case BadHeader(rest) => Consumed(false, rest)
    case HeaderBeyond => ConsumedBeyond
    case HeaderIs(_, len, rest) =>
      if AsInt(len) == -1 then Consumed(false, rest)
      else Consumed(true, if AsInt(len) < 0 then [] else rest[len..])
  }

  /** evtag_consume drops exactly one record if the payload is no longer than INT_MAX, or if it is
      the last one and its length is not taken for an error. */
  lemma ConsumeExact(r: Record, more: seq<Byte>)
    requires RecordFits(r)
    ensures Consume(RecordBytes(r) + more) == Consumed(true, more) <==>
              |r.data| <= INT_MAX || (more == [] && |r.data| != U32 - 1)
  {
    HeaderRoundTrip(r, more);
    hide HeaderOf, RecordBytes;
    assert (r.data + more)[|r.data|..] == more;
  }

  /** A record of 2^31 bytes takes the byte behind it along. */
  lemma ConsumeCanTakeMore()
    ensures var r := Record(0, seq(INT_MAX + 1, _ => 0)); Consume(RecordBytes(r) + [7]) == Consumed(true, [])
  {
    var r := Record(0, seq(INT_MAX + 1, _ => 0));
    HeaderRoundTrip(r, [7]);
    hide HeaderOf, RecordBytes;
  }

  // What evtag_unmarshal does: it appends a payload to another buffer, or fails, or asks for a copy of nearly
  // 2^64 bytes because the length is negative as an int, or has read a tag behind what it pulled up.
  datatype Taken = Got(record: Record) | Refused | HugeCopy(size: nat) | Outside

  datatype Unmarshalled = Unmarshalled(what: Taken, rest: seq<Byte>)

  const U64 := 0x1_0000_0000_0000_0000

  function UnmarshalOf(bytes: seq<Byte>): Unmarshalled {
    HeaderBound(bytes);
    match HeaderOf(bytes)
    case HeaderBeyond => Unmarshalled(Outside, bytes)
    case BadHeader(rest) => Unmarshalled(Refused, rest)
    case HeaderIs(tag, len, rest) =>
      if AsInt(len) == -1 then Unmarshalled(Refused, rest)
      else if AsInt(len) < 0 then Unmarshalled(HugeCopy(U64 + AsInt(len)), rest)
      else Unmarshalled(Got(Record(tag, rest[..len])), rest[len..])
  }

  /** evtag_unmarshal takes exactly one record if and only if its payload is no longer than INT_MAX; a longer
      one is copied from far behind its end, unless its length is taken for an error. */
  lemma UnmarshalExact(r: Record, more: seq<Byte>)
    requires RecordFits(r)
    ensures var u := UnmarshalOf(RecordBytes(r) + more);
      && (u == Unmarshalled(Got(r), more) <==> |r.data| <= INT_MAX)
      && (u.what.HugeCopy? <==> INT_MAX < |r.data| < U32 - 1)
  {
    HeaderRoundTrip(r, more);
    TakeFirst(r.data, more);
    hide HeaderOf, RecordBytes;
  }

  // ---- Input that is cut off ----

  lemma {:induction false} TagLength(t: nat, k: nat)
    requires k < PULLED && t < (if k == 4 then 16 else 128) * Shift(k)
    ensures |TagBytes(t)| <= k + 1
  {
    if t >= 128 {
      TagLength(t / 128, k - 1);
    }
  }

  // A tag of which the last bytes are missing
  lemma {:induction false} TagCut(buf: seq<Byte>, i: nat, number: nat, t: nat)
    requires i <= |buf| < i + |TagBytes(t)| <= PULLED && buf[i..] <= TagBytes(t)
    ensures DecodeTagFrom(buf, i, number).NoTag?
    decreases t
  {
    if i < |buf| {
      assert buf[i] == buf[i..][0] == TagBytes(t)[0];
      TagFirstByte(t);
      assert buf[i + 1..] == buf[i..][1..];
      TagCut(buf, i + 1, number + buf[i] as int % 128 * Shift(i) % U32, t / 128);
    }
  }

  // An integer of which the last bytes are missing
  lemma IntCut(buf: seq<Byte>, n: nat, maxNibbles: nat)
    requires Width(n) <= 16 && buf < IntBytes(n)
    ensures DecodeInt(buf, 0, maxNibbles).None?
  {
    if buf != [] {
      IntBytesAt(n, 0);
      assert buf[0] == IntBytes(n)[0];
    }
  }

  /** What is left of a record that is cut off: the parts of its header that are all there have been drained. */
  function LeftOfCut(r: Record, p: seq<Byte>): seq<Byte>
    requires RecordFits(r)
  {
    var tag, len := |TagBytes(r.tag)|, |LengthBytes(|r.data|)|;
    if |p| < tag then p else if |p| < tag + len then p[tag..] else p[tag + len..]
  }

  /** A record of which the last bytes are missing is refused, wherever it is cut off. */
  lemma CutIsRefused(r: Record, p: seq<Byte>)
    requires RecordFits(r) && p < RecordBytes(r)
    ensures UnmarshalOf(p) == Unmarshalled(Refused, LeftOfCut(r, p)) && Consume(p) == Consumed(false, LeftOfCut(r, p))
  {
    HeaderCut(r, p);
    hide HeaderOf, RecordBytes, LeftOfCut;
  }

  lemma HeaderCut(r: Record, p: seq<Byte>)
    requires RecordFits(r) && p < RecordBytes(r)
    ensures HeaderOf(p) == BadHeader(LeftOfCut(r, p))
  {
    var tag := TagBytes(r.tag);
    CutParts(tag, LengthBytes(|r.data|) + r.data, p);
    hide TagBytes, LengthBytes, DecodeTag, DecodeInt;
    if |p| < |tag| {
      TagRefused(r.tag, p);
    } else {
      TagRoundTrip(p, r.tag);
      LengthCut(r, p[|tag|..]);
    }
  }

  lemma CutParts(a: seq<Byte>, b: seq<Byte>, p: seq<Byte>)
    requires p < a + b
    ensures |p| < |a| ==> p < a
    ensures |p| >= |a| ==> Holds(p, 0, a) && p[|a|..] < b
  {
    assert p == (a + b)[..|p|];
    if |p| < |a| {
      assert p == a[..|p|];
    } else {
      assert p[0..|a|] == (a + b)[..|a|] == a;
      assert p[|a|..] == (a + b)[|a|..|p|] == b[..|p| - |a|];
    }
  }

  lemma TagRefused(tag: nat, p: seq<Byte>)
    requires tag < U32 && p < TagBytes(tag)
    ensures DecodeTag(p).NoTag?
  {
    TagLength(tag, 4);
    assert p[0..] == p;
    hide TagBytes, DecodeTagFrom;
    TagCut(p, 0, 0, tag);
  }

  lemma LengthCut(r: Record, rest: seq<Byte>)
    requires |r.data| < U32 && rest < LengthBytes(|r.data|) + r.data
    ensures var len, n := LengthBytes(|r.data|), DecodeInt(rest, 0, 8);
      if |rest| < |len| then n.None? else n == Some(Number(|r.data|, |len|))
  {
    Width32(|r.data|);
    var len := LengthBytes(|r.data|);
    var all := len + r.data;
    assert rest == all[..|rest|];
    if |rest| < |len| {
      assert rest == len[..|rest|];
      IntCut(rest, |r.data|, 8);
    } else {
      assert rest[0..|len|] == all[..|len|] == len;
      LengthRead(rest, |r.data|);
    }
  }

  // evtag_peek_length; the sum is a 32-bit number.
  function PeekLength(bytes: seq<Byte>): Option<nat> {
    var t := DecodeTag(bytes);
    if !t.TagIs? then None
    else
      var n := DecodeInt(bytes, t.count, 8);
      if n.None? then None else Some((n.value.value + n.value.len + t.count) % U32)
  }

  /** evtag_peek_length gives the size of the record. */
  lemma PeekLengthExact(r: Record, more: seq<Byte>)
    requires RecordFits(r)
    ensures PeekLength(RecordBytes(r) + more) == Some(|RecordBytes(r)| % U32)
  {
    var bytes, tag, len := RecordBytes(r) + more, TagBytes(r.tag), LengthBytes(|r.data|);
    Regroup(tag, len, r.data, more);
    HoldsFirst(tag, len + (r.data + more));
    assert Holds(bytes, |tag|, len) by {
      assert bytes[|tag|..] == len + (r.data + more);
      assert bytes[|tag|..|tag| + |len|] == bytes[|tag|..][..|len|] == len;
    }
    Pow16Is();
    hide TagBytes, DecodeInt, DecodeTag, Pow16;
    TagRoundTrip(bytes, r.tag);
    IntRoundTrip(bytes, |tag|, |r.data|, 8);
  }

  // The offset at which an integer is read does not matter.
  lemma DecodeBehind(buf: seq<Byte>, offset: nat, maxNibbles: nat)
    requires offset <= |buf|
    ensures DecodeInt(buf, offset, maxNibbles) == DecodeInt(buf[offset..], 0, maxNibbles)
  {
    hide ReadNibbles;
    assert buf[offset..][0..] == buf[offset..];
  }

  /** evtag_peek_length of a record that is cut off: its size is known exactly if its header is all there. */
  lemma PeekLengthCut(r: Record, p: seq<Byte>)
    requires RecordFits(r) && p < RecordBytes(r)
    ensures PeekLength(p) == if |p| < |TagBytes(r.tag)| + |LengthBytes(|r.data|)| then None
                             else Some(|RecordBytes(r)| % U32)
  {
    var tag := TagBytes(r.tag);
    CutParts(tag, LengthBytes(|r.data|) + r.data, p);
    hide TagBytes, LengthBytes, DecodeTag, DecodeInt;
    if |p| < |tag| {
      TagRefused(r.tag, p);
    } else {
      TagRoundTrip(p, r.tag);
      LengthCut(r, p[|tag|..]);
      DecodeBehind(p, |tag|, 8);
    }
  }

  function AllBytes(rs: seq<Record>): seq<Byte>
    requires forall i :: 0 <= i < |rs| ==> RecordFits(rs[i])
  {
    if rs == [] then [] else RecordBytes(rs[0]) + AllBytes(rs[1..])
  }

  lemma {:induction false} AllBytesAppend(rs: seq<Record>, r: Record)
    requires (forall i :: 0 <= i < |rs| ==> RecordFits(rs[i])) && RecordFits(r)
    ensures AllBytes(rs + [r]) == AllBytes(rs) + RecordBytes(r)
  {
    hide RecordBytes;
    if rs == [] {
      assert rs + [r] == [r] && [r][1..] == [];
    } else {
      AllBytesAppend(rs[1..], r);
      assert (rs + [r])[1..] == rs[1..] + [r];
      AddAssoc(RecordBytes(rs[0]), AllBytes(rs[1..]), RecordBytes(r));
    }
  }

  // What evtag_unmarshal_int finds, and what it leaves of the buffer
  datatype IntResult = IntIs(number: Number, rest: seq<Byte>) | IntBad(rest: seq<Byte>) | IntBeyond

  function IntOf(bytes: seq<Byte>, needTag: nat, maxNibbles: nat): IntResult {
    match DecodeTag(bytes)
    case NoTag => IntBad(bytes)
    case Beyond => IntBeyond
    case TagIs(tag, count) =>
      if tag != needTag then IntBad(bytes[count..])
      else
        match HeaderOf(bytes)
        case HeaderBeyond => IntBeyond
        case BadHeader(rest) => IntBad(rest)
        case HeaderIs(_, len, rest) =>
          var n := DecodeInt(rest, 0, maxNibbles);
          if n.Some? && n.value.len <= len then IntIs(n.value, rest[len..]) else IntBad(rest[len..])
  }

  /** A marshalled integer is read back. */
  lemma IntRecordRoundTrip(tag: nat, n: nat, maxNibbles: nat, more: seq<Byte>)
    requires tag < U32 && 1 <= maxNibbles <= 16 && n < Pow16(maxNibbles)
    ensures Width(n) <= 16
    ensures IntOf(RecordBytes(Record(tag, IntBytes(n))) + more, tag, maxNibbles) ==
              IntIs(Number(n, |IntBytes(n)|), more)
  {
    NibblesBound(n, maxNibbles);
    var data := IntBytes(n);
    var r := Record(tag, data);
    HeaderRoundTrip(r, more);
    HeaderTag(RecordBytes(r) + more);
    HoldsFirst(data, more);
    IntRoundTrip(data + more, 0, n, maxNibbles);
    hide RecordBytes, HeaderOf, DecodeTag, DecodeInt, IntBytes, Pow16;
    TakeFirst(data, more);
  }

  lemma HeaderTag(bytes: seq<Byte>)
    requires HeaderOf(bytes).HeaderIs?
    ensures DecodeTag(bytes).TagIs? && DecodeTag(bytes).tag == HeaderOf(bytes).tag
  {
  }

  // What is behind the integer does not matter.
  lemma {:induction false} ReadPrefix(data: seq<Byte>, more: seq<Byte>, p: nat, k: nat)
    requires p <= k + 1 && k / 2 < |data|
    ensures ReadNibbles(data + more, p, k) == ReadNibbles(data, p, k)
    decreases k + 1 - p
  {
    if p <= k {
      ReadPrefix(data, more, p + 1, k);
      assert (data + more)[p / 2] == data[p / 2];
    }
  }

  lemma DecodePrefix(data: seq<Byte>, more: seq<Byte>, maxNibbles: nat)
    ensures var n, n' := DecodeInt(data, 0, maxNibbles), DecodeInt(data + more, 0, maxNibbles);
      n == if n'.Some? && n'.value.len <= |data| then n' else None
  {
    assert data[0..] == data && (data + more)[0..] == data + more;
    if data != [] {
      var k := data[0] as int / 16 + 1;
      assert (data + more)[0] == data[0];
      if k / 2 + 1 <= |data| {
        ReadPrefix(data, more, 1, k);
      }
    }
  }

  /** evtag_unmarshal_int succeeds exactly if the tag is the one asked for and the payload alone holds an integer.
      In front of another tag it stops behind it, and otherwise it drops the record in any case. */
  lemma IntOfRecord(r: Record, needTag: nat, maxNibbles: nat, more: seq<Byte>)
    requires RecordFits(r)
    ensures var n, i := DecodeInt(r.data, 0, maxNibbles), IntOf(RecordBytes(r) + more, needTag, maxNibbles);
      i == if r.tag != needTag then IntBad(LengthBytes(|r.data|) + (r.data + more))
           else if n.Some? then IntIs(n.value, more) else IntBad(more)
  {
    HeaderRoundTrip(r, more);
    TagOfRecord(r, more);
    DecodePrefix(r.data, more, maxNibbles);
    TakeFirst(r.data, more);
    hide RecordBytes, HeaderOf, DecodeTag, DecodeInt, TagBytes, LengthBytes;
  }

  lemma TagOfRecord(r: Record, more: seq<Byte>)
    requires RecordFits(r)
    ensures var bytes, tag := RecordBytes(r) + more, TagBytes(r.tag);
      && DecodeTag(bytes) == TagIs(r.tag, |tag|) && |tag| <= |bytes|
      && bytes[|tag|..] == LengthBytes(|r.data|) + (r.data + more)
  {
    var tag, len := TagBytes(r.tag), LengthBytes(|r.data|);
    Regroup(tag, len, r.data, more);
    HoldsFirst(tag, len + (r.data + more));
    hide TagBytes, LengthBytes, DecodeTag, Holds;
    TagRoundTrip(RecordBytes(r) + more, r.tag);
  }

  // The numbers 0x1234 and 2, the tag 300, and a record of two bytes with that tag, as they go over the wire
  lemma NumberOnTheWire()
    ensures Width(0x1234) <= 16 && IntBytes(0x1234) == [0x34, 0x32, 0x10]
  {
    NibblesFirst(0x1234);
    NibblesFirst(0x123);
    NibblesFirst(0x12);
    NibblesFirst(0x1);
    hide Nibbles;
    assert Nibbles(0x1234) == [4, 3, 2, 1];
  }

  lemma NibblesFirst(n: nat)
    requires n > 0
    ensures Nibbles(n) == [n % 16] + if n < 16 then [] else Nibbles(n / 16)
  {
  }

  lemma RecordOnTheWire()
    ensures TagBytes(300) == [0xAC, 0x02] && RecordBytes(Record(300, [7, 8])) == [0xAC, 0x02, 0x02, 7, 8]
  {
    assert TagBytes(2) == [2] && TagBytes(300) == [0xAC, 0x02];
    NibblesFirst(2);
    assert Width(2) == 1 && IntBytes(2) == [0x02] by {
      hide Nibbles;
    }
    hide Nibbles, Width, IntBytes, TagBytes;
  }

  // The evbuffer, as a string of bytes
  class TagBuffer {
    var bytes: seq<Byte>

    constructor (initial: seq<Byte>)
      ensures bytes == initial
    {
      bytes := initial;
    }

    /** evtag_marshal */
    method Marshal(tag: nat, data: seq<Byte>)
      requires RecordFits(Record(tag, data))
      modifies this
      ensures bytes == old(bytes) + RecordBytes(Record(tag, data))
    {
      Width32(|data|);
      Pow16Is();
      hide TagBytes, IntBytes, Pow16;
      var t := EncodeTag(tag);
      var l := EncodeInt(|data|, 4);
      Regroup(bytes, [], t, l + data);
      bytes := bytes + t;
      AddAssoc(bytes, l, data);
      bytes := bytes + l;
      bytes := bytes + data;
      AddAssoc(old(bytes), t, l + data);
    }

    /** evtag_unmarshal into another buffer */
    method Unmarshal() returns (r: Taken)
      modifies this
      ensures Unmarshalled(r, bytes) == UnmarshalOf(old(bytes))
    {
      HeaderBound(bytes);
      var t := DecodeTagLoop(bytes);
      if t.Beyond? {
        return Outside;
      }
      if !t.TagIs? {
        return Refused;
      }
      bytes := bytes[t.count..];
      var n := DecodeIntLoop(bytes, 0, 8);
      if n.None? {
        return Refused;
      }
      bytes := bytes[n.value.len..];
      if |bytes| < n.value.value {
        return Refused;
      }
      var len := AsInt(n.value.value);
      if len == -1 {
        return Refused;
      }
      if len < 0 {
        return HugeCopy(U64 + len);
      }
      r := Got(Record(t.tag, bytes[..len]));
      bytes := bytes[len..];
    }

    /** evtag_marshal_int for 4 bytes and evtag_marshal_int64 for 8: a record whose payload is the
        encoded integer */
    method MarshalInt(tag: nat, n: nat, size: nat)
      requires tag < U32 && (size == 4 || size == 8) && n < Pow16(2 * size)
      modifies this
      ensures Width(n) <= 16 && bytes == old(bytes) + RecordBytes(Record(tag, IntBytes(n)))
    {
      var data := EncodeInt(n, size);
      hide RecordBytes;
      Marshal(tag, data);
    }

    /** evtag_unmarshal_int and evtag_unmarshal_int64 */
    method UnmarshalInt(needTag: nat, maxNibbles: nat) returns (r: Option<Number>, outside: bool)
      modifies this
      ensures outside <==> Overlong(old(bytes))
      ensures var i := IntOf(old(bytes), needTag, maxNibbles);
        && outside == i.IntBeyond? && r == (if i.IntIs? then Some(i.number) else None)
        && bytes == if outside then old(bytes) else i.rest
    {
      BeyondIsOverlong(bytes);
      hide ReadNibbles, DecodeTagFrom;
      outside := false;
      var t := DecodeTagLoop(bytes);
      if t.Beyond? {
        return None, true;
      }
      if !t.TagIs? {
        return None, false;
      }
      bytes := bytes[t.count..];
      if t.tag != needTag {
        return None, false;
      }
      var n := DecodeIntLoop(bytes, 0, 8);
      if n.None? {
        return None, false;
      }
      bytes := bytes[n.value.len..];
      if |bytes| < n.value.value {
        return None, false;
      }
      r := DecodeIntLoop(bytes, 0, maxNibbles);
      bytes := bytes[n.value.value..];
      if r.Some? && r.value.len > n.value.value {
        r := None;
      }
    }

    method MarshalAll(rs: seq<Record>)
      requires forall i :: 0 <= i < |rs| ==> RecordFits(rs[i])
      modifies this
      ensures bytes == old(bytes) + AllBytes(rs)
    {
      hide RecordBytes;
      for i := 0 to |rs|
        invariant bytes == old(bytes) + AllBytes(rs[..i])
      {
        AllBytesAppend(rs[..i], rs[i]);
        assert rs[..i + 1] == rs[..i] + [rs[i]];
        AddAssoc(old(bytes), AllBytes(rs[..i]), RecordBytes(rs[i]));
        Marshal(rs[i].tag, rs[i].data);
      }
      assert rs[..|rs|] == rs;
    }

    /** Any sequence of records that was marshalled is read back exactly, with what follows left
        in place. */
    method UnmarshalAll(ghost rs: seq<Record>, ghost more: seq<Byte>, n: nat) returns (out: seq<Record>)
      requires n == |rs| && forall i :: 0 <= i < |rs| ==> RecordFits(rs[i]) && |rs[i].data| <= INT_MAX
      requires bytes == AllBytes(rs) + more
      modifies this
      ensures out == rs && bytes == more
    {
      hide RecordBytes, HeaderOf;
      out := [];
      assert rs[0..] == rs;
      for i := 0 to n
        invariant out == rs[..i] && bytes == AllBytes(rs[i..]) + more
      {
        AllBytesFirst(rs, i, more);
        HeaderRoundTrip(rs[i], AllBytes(rs[i + 1..]) + more);
        HoldsFirst(rs[i].data, AllBytes(rs[i + 1..]) + more);
        TakeFirst(rs[i].data, AllBytes(rs[i + 1..]) + more);
        var r := Unmarshal();
        out := out + [r.record];
      }
      assert rs[|rs|..] == [] && [] + more == more;
    }
  }

  lemma AllBytesFirst(rs: seq<Record>, i: nat, more: seq<Byte>)
    requires i < |rs| && forall i :: 0 <= i < |rs| ==> RecordFits(rs[i])
    ensures AllBytes(rs[i..]) + more == RecordBytes(rs[i]) + (AllBytes(rs[i + 1..]) + more)
  {
    hide RecordBytes;
    assert rs[i..][1..] == rs[i + 1..];
    AddAssoc(RecordBytes(rs[i]), AllBytes(rs[i + 1..]), more);
  }

  lemma TakeFirst(a: seq<Byte>, b: seq<Byte>)
    ensures (a + b)[..|a|] == a && (a + b)[|a|..] == b
  {
  }
}
