/** libs/fifo.c against a plain queue of bytes: a machine without ring, indices or copies, driven by
    the same calls and steps, answers the same at every moment. */
module FifoFlow {
  import opened FifoIndex
  import opened FifoSteps
  import opened FifoRuns

  /** A `fifo_in` under way, and the bytes it has still to copy. */
  datatype Writer = Free | Writing(bytes: seq<Byte>, left: nat)

  datatype Reader = Ready | Reading(len: nat, left: nat, keep: bool) | Passing(len: nat)

  /** The stream so far, how much of it has been consumed, and the answers given. */
  datatype Flow = Flow(size: nat, stream: seq<Byte>, read: nat, writer: Writer, reader: Reader, answers: seq<Answer>)

  predicate FlowOk(f: Flow) {
    && f.read <= |f.stream|
    && (f.reader.Reading? ==> f.read + f.reader.len <= |f.stream|) && (f.reader.Passing? ==> f.read + f.reader.len <= |f.stream|)
  }

  /** A `fifo_in` of `n` bytes that finds no other under way finds room for them. */
  predicate Accepts(f: Flow, n: nat) { f.writer == Free && |f.stream| - f.read + n < f.size }

  predicate Offers(f: Flow, n: nat) { f.reader == Ready && f.read + n <= |f.stream| }

  function FlowNext(f: Flow, e: Event): (f': Flow)
    requires FlowOk(f)
    ensures FlowOk(f') && f'.size == f.size && f.stream <= f'.stream && f.read <= f'.read
  {
    match e
    case Feed(bytes) => if Accepts(f, |bytes|) then f.(writer := Writing(bytes, |bytes|)) else f
    case Produce =>
      if f.writer == Free then f
      else if f.writer.left > 0 then f.(writer := f.writer.(left := f.writer.left - 1))
      else f.(writer := Free, stream := f.stream + f.writer.bytes)
    case Fetch(len) => if Offers(f, len) then f.(reader := Reading(len, len, false)) else f
    case Look(len) => if Offers(f, len) then f.(reader := Reading(len, len, true)) else f
    case Skip(len) => if Offers(f, len) then f.(reader := Passing(len)) else f
    case Consume =>
      match f.reader
      case Ready => f
      case Reading(len, left, keep) =>
        if left > 0 then f.(reader := Reading(len, left - 1, keep))
        else f.(reader := Ready, read := if keep then f.read else f.read + len,
                answers := f.answers + [Answer(f.read, f.stream[f.read..f.read + len])])
      case Passing(len) => f.(reader := Ready, read := f.read + len)
  }

  function FlowAfter(f: Flow, es: seq<Event>): (f': Flow)
    requires FlowOk(f)
    ensures FlowOk(f')
    decreases |es|
  {
    if es == [] then f else FlowAfter(FlowNext(f, es[0]), es[1..])
  }

  // ---------------------------------------------------------------- the ring is such a queue

  function WriterOf(p: Producer): Writer
    requires p.Filling? ==> p.done <= |p.data|
  {
    if p == Idle then Free else Writing(p.data, |p.data| - p.done)
  }

  function ReaderOf(c: Consumer): Reader
    requires c.Draining? ==> |c.got| <= c.len
  {
    match c
    case Resting => Ready
    case Draining(len, got, keep) => Reading(len, len - |got|, keep)
    case Skipping(len) => Passing(len)
  }

  /** What can be seen of the ring from outside. */
  ghost function View(s: Ring): (f: Flow)
    requires Inv(s)
    ensures FlowOk(f)
  {
    Flow(s.size, s.sent, |s.passed|, WriterOf(s.producer), ReaderOf(s.consumer), s.answers)
  }

  lemma ViewCall(s: Ring, e: Event)
    requires Inv(s) && Inv(Next(s, e)) && !e.Produce? && !e.Consume?
    ensures View(Next(s, e)) == FlowNext(View(s), e)
  {
    LenIs(s);
  }

  lemma ViewProduce(s: Ring)
    requires Inv(s) && Inv(Next(s, Produce))
    ensures View(Next(s, Produce)) == FlowNext(View(s), Produce)
  {}

  lemma ViewConsume(s: Ring)
    requires Inv(s) && Inv(Next(s, Consume))
    ensures View(Next(s, Consume)) == FlowNext(View(s), Consume)
  {
    if s.consumer.Draining? && |s.consumer.got| == s.consumer.len {
      assert s.consumer.got == s.sent[|s.passed|..|s.passed| + s.consumer.len];
    }
  }

  lemma ViewNext(s: Ring, e: Event)
    requires Inv(s)
    ensures Inv(Next(s, e)) && View(Next(s, e)) == FlowNext(View(s), e)
  {
    NextKeeps(s, e);
    if e.Produce? {
      ViewProduce(s);
    } else if e.Consume? {
      ViewConsume(s);
    } else {
      ViewCall(s, e);
    }
  }

  /** Over every interleaving the ring shows what the plain queue has. */
  lemma {:induction false} Refines(s: Ring, es: seq<Event>)
    requires Inv(s)
    ensures Inv(After(s, es)) && View(After(s, es)) == FlowAfter(View(s), es)
    decreases |es|
  {
    if es != [] {
      ViewNext(s, es[0]);
      Refines(Next(s, es[0]), es[1..]);
    }
  }

  // ---------------------------------------------------------------- what has been fed

  /** The bytes that a call lets in. */
  function LetIn(f: Flow, e: Event): seq<Byte> { if e.Feed? && Accepts(f, |e.bytes|) then e.bytes else [] }

  /** The bytes of all `fifo_in` calls that were let in, in order. */
  function Fed(f: Flow, es: seq<Event>): seq<Byte>
    requires FlowOk(f)
    decreases |es|
  {
    if es == [] then []
    else LetIn(f, es[0]) + Fed(FlowNext(f, es[0]), es[1..])
  }

  function UnderWay(w: Writer): seq<Byte> { if w == Free then [] else w.bytes }

  lemma FedStep(f: Flow, e: Event)
    requires FlowOk(f)
    ensures var f' := FlowNext(f, e); f'.stream + UnderWay(f'.writer) == f.stream + UnderWay(f.writer) + LetIn(f, e)
  {}

  lemma {:induction false} FedOverRun(f: Flow, es: seq<Event>)
    requires FlowOk(f)
    ensures var f' := FlowAfter(f, es); f'.stream + UnderWay(f'.writer) == f.stream + UnderWay(f.writer) + Fed(f, es)
    decreases |es|
  {
    if es != [] {
      FedStep(f, es[0]);
      FedOverRun(FlowNext(f, es[0]), es[1..]);
    }
  }

  function Empty(size: nat): Flow { Flow(size, [], 0, Free, Ready, []) }

  /** From `fifo_init`, over every interleaving: what has been sent, with the bytes of a call under
      way, is exactly what the calls that were let in were given; what has been consumed is a prefix
      of it; every answer is the stretch of it that it says it is. */
  lemma Delivered(data: seq<Byte>, es: seq<Event>)
    requires 0 < |data| <= WORD / 2
    ensures var s, f, fed := After(Init(data), es), FlowAfter(Empty(|data|), es), Fed(Empty(|data|), es);
      && Inv(s) && View(s) == f
      && s.sent + (if s.producer == Idle then [] else s.producer.data) == fed
      && s.passed <= s.sent <= fed && forall a :: a in s.answers ==> AnswerOk(fed, a)
  {
    var s := After(Init(data), es);
    Refines(Init(data), es);
    FedOverRun(Empty(|data|), es);
    var fed := Fed(Empty(|data|), es);
    assert [] + [] + fed == fed;
    forall a | a in s.answers ensures AnswerOk(fed, a) {
      assert AnswerOk(s.sent, a);
      assert fed[a.at..|s.sent|] == s.sent[a.at..];
    }
  }

  // ---------------------------------------------------------------- whole calls

  function Count(es: seq<Event>, e: Event): nat {
    if es == [] then 0 else (if es[0] == e then 1 else 0) + Count(es[1..], e)
  }

  /** While a call reads, the bytes it will answer stay what they are, whatever the producer does. */
  lemma {:induction false} StillReading(f: Flow, es: seq<Event>)
    requires FlowOk(f) && f.reader.Reading? && Count(es, Consume) <= f.reader.left
    ensures var f' := FlowAfter(f, es);
      && f'.reader == f.reader.(left := f.reader.left - Count(es, Consume))
      && f'.read == f.read && f'.answers == f.answers && f.stream <= f'.stream
    decreases |es|
  {
    if es != [] {
      StillReading(FlowNext(f, es[0]), es[1..]);
    }
  }

  lemma {:induction false} StillPassing(f: Flow, es: seq<Event>)
    requires FlowOk(f) && f.reader.Passing? && Count(es, Consume) == 0
    ensures var f' := FlowAfter(f, es);
      f'.reader == f.reader && f'.read == f.read && f'.answers == f.answers && f.stream <= f'.stream
    decreases |es|
  {
    if es != [] {
      StillPassing(FlowNext(f, es[0]), es[1..]);
    }
  }

  lemma {:induction false} StillWriting(f: Flow, es: seq<Event>)
    requires FlowOk(f) && f.writer.Writing? && Count(es, Produce) <= f.writer.left
    ensures var f' := FlowAfter(f, es);
      f'.writer == f.writer.(left := f.writer.left - Count(es, Produce)) && f'.stream == f.stream
    decreases |es|
  {
    if es != [] {
      StillWriting(FlowNext(f, es[0]), es[1..]);
    }
  }

  lemma PassedIs(s: Ring, s': Ring, n: nat)
    requires Inv(s) && Inv(s') && s.sent <= s'.sent && |s'.passed| == |s.passed| + n <= |s.sent|
    ensures s'.passed == s.passed + s.sent[|s.passed|..|s.passed| + n]
  {
    assert s'.passed == s'.sent[..|s.passed| + n] == s.sent[..|s.passed| + n];
  }

  /** A call of the plain queue, with anything in between its start and its last step. */
  lemma FlowRead(f: Flow, len: nat, keep: bool, es: seq<Event>)
    requires FlowOk(f) && Offers(f, len) && Count(es, Consume) == len
    ensures var f' := FlowNext(FlowAfter(FlowNext(f, if keep then Look(len) else Fetch(len)), es), Consume);
      && f'.reader == Ready && f'.answers == f.answers + [Answer(f.read, f.stream[f.read..f.read + len])]
      && f'.read == (if keep then f.read else f.read + len) && f.stream <= f'.stream
  {
    var f1 := FlowNext(f, if keep then Look(len) else Fetch(len));
    StillReading(f1, es);
    var f2 := FlowAfter(f1, es);
    assert f2.stream[f.read..f.read + len] == f.stream[f.read..f.read + len];
  }

  /** The states of the ring at the start and the end of such a call. */
  lemma ViewSpan(s: Ring, e: Event, es: seq<Event>, e': Event)
    requires Inv(s)
    ensures var s' := Next(After(Next(s, e), es), e');
      Inv(s') && View(s') == FlowNext(FlowAfter(FlowNext(View(s), e), es), e')
  {
    ViewNext(s, e);
    Refines(Next(s, e), es);
    ViewNext(After(Next(s, e), es), e');
  }

  /** A whole `fifo_out` or `fifo_out_peek` of `len` bytes, once let in, with anything in between: it
      answers the next `len` bytes of the stream, and passes them unless it only peeks. */
  lemma ReadCall(s: Ring, len: nat, keep: bool, es: seq<Event>)
    requires Inv(s) && s.consumer == Resting && len <= |s.sent| - |s.passed| && Count(es, Consume) == len
    ensures var r, next := |s.passed|, s.sent[|s.passed|..|s.passed| + len];
      var s' := Next(After(Next(s, if keep then Look(len) else Fetch(len)), es), Consume);
      && s'.consumer == Resting && s'.answers == s.answers + [Answer(r, next)]
      && s'.passed == if keep then s.passed else s.passed + next
  {
    var e := if keep then Look(len) else Fetch(len);
    FlowRead(View(s), len, keep, es);
    ViewSpan(s, e, es, Consume);
    PassedIs(s, Next(After(Next(s, e), es), Consume), if keep then 0 else len);
  }

  /** A whole `fifo_skip`. */
  lemma SkipCall(s: Ring, len: nat, es: seq<Event>)
    requires Inv(s) && s.consumer == Resting && len <= |s.sent| - |s.passed| && Count(es, Consume) == 0
    ensures var s' := Next(After(Next(s, Skip(len)), es), Consume);
      && s'.consumer == Resting && s'.answers == s.answers
      && s'.passed == s.passed + s.sent[|s.passed|..|s.passed| + len]
  {
    StillPassing(FlowNext(View(s), Skip(len)), es);
    ViewSpan(s, Skip(len), es, Consume);
    PassedIs(s, Next(After(Next(s, Skip(len)), es), Consume), len);
  }

  /** A whole `fifo_in`: exactly its bytes are appended to the stream. */
  lemma WriteCall(s: Ring, bytes: seq<Byte>, es: seq<Event>)
    requires Inv(s) && s.producer == Idle && |s.sent| - |s.passed| + |bytes| < s.size && Count(es, Produce) == |bytes|
    ensures var s' := Next(After(Next(s, Feed(bytes)), es), Produce); s'.producer == Idle && s'.sent == s.sent + bytes
  {
    StillWriting(FlowNext(View(s), Feed(bytes)), es);
    ViewSpan(s, Feed(bytes), es, Produce);
  }
}
