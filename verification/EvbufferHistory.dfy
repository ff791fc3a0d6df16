/**
 Whole histories of evbuffer operations against plain byte strings.

 A buffer in which no read has come short stays compact, and everything can be done to it. After
 a short read evbuffer_add may lose the link to the data; a history is followed up to there.

 A history works on two buffers; each command names the buffer it is called on, and the other
 one is the second operand of the operations that move data between buffers.
 */
module EvbufferHistory {
  import opened Chunks
  import opened Evbuffers
  import opened EvbufferRead
  import opened EvbufferSearch
  import opened Wrappers

  datatype ByteString = ByteString(bytes: seq<Byte>, frozenStart: bool, frozenEnd: bool)

  datatype Operation =
    | Add(data: seq<Byte>)
    | Prepend(data: seq<Byte>)
    | Drain(len: nat)
    | CopyOut(len: nat)
    | Remove(len: nat)
    | AddBuffer
    | PrependBuffer
    | RemoveBuffer(len: nat)
    | Pullup(size: int)
    | Freeze(start: bool, end: bool)
    | Read(readable: int, howmuch: int, pending: seq<Byte>, delivers: nat, fails: bool)
    | Readln(style: EolStyle)

  datatype Answer = Answer(code: int, bytes: seq<Byte>)
  datatype Outcome = Outcome(self: ByteString, other: ByteString, answer: Answer)
  datatype Command = Command(op: Operation, onSecond: bool)
  datatype World = World(first: ByteString, second: ByteString, answers: seq<Answer>)

  /** What each operation does to byte strings. */
  function Perform(op: Operation, b: ByteString, other: ByteString): Outcome {
    match op
    case Add(data) =>
      if b.frozenEnd then Outcome(b, other, Answer(-1, []))
      else Outcome(b.(bytes := b.bytes + data), other, Answer(0, []))
    case Prepend(data) =>
      if b.frozenStart then Outcome(b, other, Answer(-1, []))
      else Outcome(b.(bytes := data + b.bytes), other, Answer(0, []))
    case Drain(len) =>
      if b.frozenStart && b.bytes != [] then Outcome(b, other, Answer(-1, []))
      else Outcome(b.(bytes := b.bytes[Min(len, |b.bytes|)..]), other, Answer(0, []))
    case CopyOut(len) =>
      var n := Min(len, |b.bytes|);
      if b.frozenStart && n > 0 then Outcome(b, other, Answer(-1, []))
      else Outcome(b, other, Answer(n, b.bytes[..n]))
    case Remove(len) =>
      var n := Min(len, |b.bytes|);
      if b.frozenStart && n > 0 then Outcome(b, other, Answer(-1, []))
      else Outcome(b.(bytes := b.bytes[n..]), other, Answer(n, b.bytes[..n]))
    case AddBuffer =>
      if other.bytes == [] then Outcome(b, other, Answer(0, []))
      else if b.frozenEnd || other.frozenStart then Outcome(b, other, Answer(-1, []))
      else Outcome(b.(bytes := b.bytes + other.bytes), other.(bytes := []), Answer(0, []))
    case PrependBuffer =>
      if other.bytes == [] then Outcome(b, other, Answer(0, []))
      else if b.frozenStart || other.frozenStart then Outcome(b, other, Answer(-1, []))
      else Outcome(b.(bytes := other.bytes + b.bytes), other.(bytes := []), Answer(0, []))
    case RemoveBuffer(len) =>
      var n := Min(len, |b.bytes|);
      if len == 0 then Outcome(b, other, Answer(0, []))
      else if other.frozenEnd || b.frozenStart then Outcome(b, other, Answer(-1, []))
      else Outcome(b.(bytes := b.bytes[n..]), other.(bytes := other.bytes + b.bytes[..n]), Answer(n, []))
    case Pullup(size) =>
      var n := if size < 0 then |b.bytes| else size;
      if 0 < n <= |b.bytes| then Outcome(b, other, Answer(0, b.bytes[..n])) else Outcome(b, other, Answer(-1, []))
    case Freeze(start, end) =>
      Outcome(b.(frozenStart := start, frozenEnd := end), other, Answer(0, []))
    case Read(readable, howmuch, pending, delivers, fails) =>
      var n := Min(delivers, Min(|pending|, HowMuch(readable, howmuch)));
      if b.frozenEnd || fails then Outcome(b, other, Answer(-1, []))
      else Outcome(b.(bytes := b.bytes + pending[..n]), other, Answer(n, []))
    case Readln(style) =>
      var end := LineEnd(b.bytes, style, 0);
      if b.frozenStart || end.None? then Outcome(b, other, Answer(-1, []))
      else Outcome(b.(bytes := b.bytes[end.value.0 + end.value.1..]), other, Answer(0, b.bytes[..end.value.0]))
  }

  function Obey(w: World, c: Command): World {
    if c.onSecond then
      var o := Perform(c.op, w.second, w.first);
      World(o.other, o.self, w.answers + [o.answer])
    else
      var o := Perform(c.op, w.first, w.second);
      World(o.self, o.other, w.answers + [o.answer])
  }

  function Replay(w: World, history: seq<Command>): World {
    if history == [] then w
    else Obey(Replay(w, history[..|history| - 1]), history[|history| - 1])
  }

  // ---- A pipe of two buffers ----

  // Bytes enter the first buffer at its end, are moved to the end of the second one, and leave it at its front.
  predicate PipeCommand(c: Command) {
    match c.op
    case Add(_) => !c.onSecond
    case Read(_, _, _, _, _) => !c.onSecond
    case RemoveBuffer(_) => !c.onSecond
    case AddBuffer => c.onSecond
    case Remove(_) => c.onSecond
    case CopyOut(_) => true
    case Pullup(_) => true
    case Freeze(_, _) => true
    case _ => false
  }

  // What a command brought in, and what it took out, going by its answer
  function Given(c: Command, a: Answer): seq<Byte> {
    if c.op.Add? && a.code == 0 then c.op.data
    else if c.op.Read? && 0 < a.code <= |c.op.pending| then c.op.pending[..a.code]
    else []
  }

  function Taken(c: Command, a: Answer): seq<Byte> {
    if c.op.Remove? then a.bytes else []
  }

  function AllGiven(history: seq<Command>, answers: seq<Answer>): seq<Byte>
    requires |history| == |answers|
  {
    if history == [] then []
    else
      var n := |history| - 1;
      AllGiven(history[..n], answers[..n]) + Given(history[n], answers[n])
  }

  function AllTaken(history: seq<Command>, answers: seq<Answer>): seq<Byte>
    requires |history| == |answers|
  {
    if history == [] then []
    else
      var n := |history| - 1;
      AllTaken(history[..n], answers[..n]) + Taken(history[n], answers[n])
  }

  lemma ObeyPipes(w: World, c: Command)
    requires PipeCommand(c)
    ensures var w' := Obey(w, c);
      && |w'.answers| == |w.answers| + 1 && w'.answers[..|w.answers|] == w.answers
      && var a := w'.answers[|w.answers|];
         Taken(c, a) + (w'.second.bytes + w'.first.bytes) == w.second.bytes + w.first.bytes + Given(c, a)
  {
    hide LineEnd;
    if c.op.Remove? {
      var n := Min(c.op.len, |w.second.bytes|);
      assert w.second.bytes[..n] + w.second.bytes[n..] == w.second.bytes;
    } else if c.op.RemoveBuffer? {
      var n := Min(c.op.len, |w.first.bytes|);
      assert w.first.bytes[..n] + w.first.bytes[n..] == w.first.bytes;
    }
  }

  /** In every history of a pipe what has left it, and then what is in it, is what was in it at first, and then
      what has come in: no byte is lost, doubled or overtaken, whatever was refused on the way. */
  lemma {:induction false} PipeKeepsOrder(w: World, history: seq<Command>)
    requires w.answers == [] && forall i :: 0 <= i < |history| ==> PipeCommand(history[i])
    ensures var w' := Replay(w, history);
      && |w'.answers| == |history|
      && AllTaken(history, w'.answers) + (w'.second.bytes + w'.first.bytes) ==
           w.second.bytes + w.first.bytes + AllGiven(history, w'.answers)
    decreases |history|
  {
    if history != [] {
      var n := |history| - 1;
      var w1 := Replay(w, history[..n]);
      PipeKeepsOrder(w, history[..n]);
      ObeyPipes(w1, history[n]);
      hide Obey, Perform, Taken, Given, PipeCommand;
      var w' := Obey(w1, history[n]);
      var a := w'.answers[n];
      var t, g, x, y := AllTaken(history[..n], w1.answers), AllGiven(history[..n], w1.answers),
        w1.second.bytes + w1.first.bytes, w'.second.bytes + w'.first.bytes;
      PipeNext(t, Taken(history[n], a), x, y, w.second.bytes + w.first.bytes, g, Given(history[n], a));
    }
  }

  lemma PipeNext(t: seq<Byte>, taken: seq<Byte>, x: seq<Byte>, y: seq<Byte>, start: seq<Byte>, g: seq<Byte>,
                 given: seq<Byte>)
    requires t + x == start + g && taken + y == x + given
    ensures t + taken + y == start + (g + given)
  {
    AddAssoc(t, taken, y);
    AddAssoc(t, x, given);
    AddAssoc(start, g, given);
  }

  ghost function View(b: Evbuffer): ByteString
    reads b
  {
    ByteString(b.Contents(), b.freezeStart, b.freezeEnd)
  }

  // The operation can be followed: evbuffer_add, called for itself or by evbuffer_remove_buffer, keeps
  // the link right, and evbuffer_remove_buffer takes whole chunks from a list without gaps.
  predicate Followed(op: Operation, b: Evbuffer, other: Evbuffer)
    requires IsLastWithData(b.chains, b.lastWithDatap) && IsLastWithData(other.chains, other.lastWithDatap)
    reads b, other
  {
    match op
    case Add(data) =>
      b.freezeEnd || (AddSafe(b.chains, b.lastWithDatap, |data|) && AddKeepsLink(b.chains, b.lastWithDatap, |data|))
    case RemoveBuffer(len) =>
      b.MovesSome(other, len) ==>
        var moved, n := b.chains[..Covered(b.chains, len)], Uncovered(b.chains, len);
        && TakeSafe(other.chains, other.lastWithDatap, moved, n)
           && TakeKeepsLink(other.chains, other.lastWithDatap, moved, n)
        && SourceKeepsLink(b.chains, b.lastWithDatap, len)
    case _ => true
  }

  lemma CompactIsFollowed(op: Operation, b: Evbuffer, other: Evbuffer)
    requires b.Valid() && other.Valid() && b.Compact() && other.Compact()
    ensures Followed(op, b, other)
  {
    hide Flat, Covered, Uncovered, TakeSafe, TakeKeepsLink, SourceKeepsLink;
    CompactWithData(b.chains, b.lastWithDatap);
    CompactWithData(other.chains, other.lastWithDatap);
    if op.RemoveBuffer? && b.MovesSome(other, op.len) {
      CompactTake(other.chains, other.lastWithDatap, b.chains, b.lastWithDatap, op.len, Uncovered(b.chains, op.len));
    }
  }

  // A read that gets everything it asks for; what it asks for depends on how much there is.
  predicate Whole(op: Operation) {
    op.Read? ==>
      var h := HowMuch(op.readable, op.howmuch);
      !op.fails && op.delivers >= h && |op.pending| >= h
  }

  // Operations that move data between the buffers
  method ExecuteBoth(op: Operation, b: Evbuffer, other: Evbuffer) returns (code: int)
    requires b != other && b.Valid() && other.Valid() && Followed(op, b, other)
    requires op.AddBuffer? || op.PrependBuffer? || op.RemoveBuffer?
    modifies b, other
    ensures b.Valid() && other.Valid()
    ensures Outcome(View(b), View(other), Answer(code, [])) == Perform(op, old(View(b)), old(View(other)))
    ensures old(b.Compact() && other.Compact()) ==> b.Compact() && other.Compact()
    ensures old(DataFirst(b.chains) && DataFirst(other.chains)) ==> DataFirst(b.chains) && DataFirst(other.chains)
  {
    hide Flat, TakeSafe, TakeKeepsLink, SourceKeepsLink, Covered, Uncovered, IsLastWithData, CompactList, DataFirst;
    match op {
      case AddBuffer => code := b.AddBuffer(other);
      case PrependBuffer => code := b.PrependBuffer(other);
      case RemoveBuffer(len) => code := b.RemoveBuffer(other, len);
    }
  }

  // Operations that take data out, or look at it
  method ExecuteOut(op: Operation, b: Evbuffer, ghost other: ByteString) returns (a: Answer)
    requires b.Valid() && (op.Drain? || op.CopyOut? || op.Remove? || op.Pullup? || op.Readln?)
    modifies b
    ensures b.Valid() && Outcome(View(b), other, a) == Perform(op, old(View(b)), other)
    ensures old(b.Compact()) ==> b.Compact()
    ensures old(DataFirst(b.chains)) ==> DataFirst(b.chains)
  {
    hide Flat, LineEnd, FirstEol, IsLastWithData, CompactList, DataFirst;
    var code, out := 0, [];
    match op {
      case Drain(len) => code := b.Drain(len);
      case CopyOut(len) => code, out := b.CopyOut(len);
      case Remove(len) => code, out := b.Remove(len);
      case Pullup(size) =>
        var p := b.Pullup(size);
        code, out := if p.Some? then 0 else -1, if p.Some? then p.value else [];
      case Readln(style) =>
        ghost var s := b.Contents();
        var line, eol := EvbufferSearch.Readln(b, style);
        if !b.freezeStart {
          LineEndIs(s, style, 0, eol);
        }
        code, out := if line.Some? then 0 else -1, if line.Some? then line.value else [];
    }
    a := Answer(code, out);
  }

  // Operations that put data in, and the freezes
  method ExecuteIn(op: Operation, b: Evbuffer, ghost other: ByteString) returns (code: int)
    requires b.Valid() && (op.Add? || op.Prepend? || op.Read? || op.Freeze?)
    requires op.Add? && !b.freezeEnd ==>
               AddSafe(b.chains, b.lastWithDatap, |op.data|) && AddKeepsLink(b.chains, b.lastWithDatap, |op.data|)
    modifies b
    ensures b.Valid() && Outcome(View(b), other, Answer(code, [])) == Perform(op, old(View(b)), other)
    ensures old(b.Compact()) && Whole(op) ==> b.Compact()
    ensures old(DataFirst(b.chains)) ==> DataFirst(b.chains)
  {
    hide Flat, AddSafe, AddKeepsLink, IsLastWithData, CompactList, DataFirst;
    code := 0;
    match op {
      case Add(data) => code := b.Add(data);
      case Prepend(data) => code := b.Prepend(data);
      case Freeze(start, end) => b.freezeStart, b.freezeEnd := start, end;
      case Read(readable, howmuch, pending, delivers, fails) =>
        code := EvbufferRead.Read(b, readable, howmuch, pending, delivers, fails);
    }
  }

  method Execute(op: Operation, b: Evbuffer, other: Evbuffer) returns (a: Answer)
    requires b != other && b.Valid() && other.Valid() && Followed(op, b, other)
    modifies b, other
    ensures b.Valid() && other.Valid()
    ensures Outcome(View(b), View(other), a) == Perform(op, old(View(b)), old(View(other)))
    ensures old(b.Compact() && other.Compact()) && Whole(op) ==> b.Compact() && other.Compact()
    ensures old(DataFirst(b.chains) && DataFirst(other.chains)) ==> DataFirst(b.chains) && DataFirst(other.chains)
  {
    hide Flat, LineEnd, AddSafe, AddKeepsLink, TakeSafe, TakeKeepsLink, SourceKeepsLink, Covered, Uncovered,
         IsLastWithData, CompactList, DataFirst, Perform, Whole;
    match op {
      case AddBuffer | PrependBuffer | RemoveBuffer(_) =>
        var code := ExecuteBoth(op, b, other);
        a := Answer(code, []);
      case Drain(_) | CopyOut(_) | Remove(_) | Pullup(_) | Readln(_) => a := ExecuteOut(op, b, View(other));
      case _ =>
        var code := ExecuteIn(op, b, View(other));
        a := Answer(code, []);
    }
  }

  /** A history on two buffers answers, and leaves, what byte strings would, up to the first operation
      that cannot be followed. On compact buffers, such as new ones, every history is followed to its end
      in which no read gets less than it asks for. */
  method Run(a: Evbuffer, b: Evbuffer, history: seq<Command>) returns (answers: seq<Answer>, done: nat)
    requires a != b && a.Valid() && b.Valid()
    modifies a, b
    ensures a.Valid() && b.Valid() && done <= |history|
    ensures World(View(a), View(b), answers) == Replay(World(old(View(a)), old(View(b)), []), history[..done])
    ensures done < |history| ==>
              !(if history[done].onSecond then Followed(history[done].op, b, a) else Followed(history[done].op, a, b))
    ensures old(a.Compact() && b.Compact()) && (forall i :: 0 <= i < |history| ==> Whole(history[i].op)) ==>
              done == |history| && a.Compact() && b.Compact()
    ensures old(DataFirst(a.chains) && DataFirst(b.chains)) ==> DataFirst(a.chains) && DataFirst(b.chains)
  {
    hide Flat, Perform, Followed, CompactList, IsLastWithData, DataFirst;
    answers, done := [], 0;
    ghost var start := World(View(a), View(b), []);
    while done < |history|
      invariant a.Valid() && b.Valid() && done <= |history|
      invariant World(View(a), View(b), answers) == Replay(start, history[..done])
      invariant old(a.Compact() && b.Compact()) && (forall i :: 0 <= i < |history| ==> Whole(history[i].op)) ==>
                  a.Compact() && b.Compact()
      invariant old(DataFirst(a.chains) && DataFirst(b.chains)) ==> DataFirst(a.chains) && DataFirst(b.chains)
    {
      var c := history[done];
      assert history[..done + 1][..done] == history[..done];
      if a.Compact() && b.Compact() {
        CompactIsFollowed(c.op, a, b);
        CompactIsFollowed(c.op, b, a);
      }
      var answer;
      if c.onSecond {
        if !Followed(c.op, b, a) {
          return;
        }
        answer := Execute(c.op, b, a);
      } else {
        if !Followed(c.op, a, b) {
          return;
        }
        answer := Execute(c.op, a, b);
      }
      answers, done := answers + [answer], done + 1;
    }
  }
}
