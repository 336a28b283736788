/** libs/fifo.c with one producer and one consumer and no lock, stepping at every byte copied and
    every index published. */
module FifoSteps {
  import opened RingWindow
  import opened FifoIndex

  type Byte = x: int | 0 <= x < 256

  /** Where the two `memcpy`s of a copy of `len` bytes from offset `off` put byte `k`. */
  function Slot(off: nat, k: nat, len: nat, size: nat): (x: nat)
    requires off < size && k < len < size
    ensures x == Wrap(off + k, size) < size
  {
    var l := if len < size - off then len else size - off;
    if k < l then off + k else k - l
  }

  datatype Producer = Idle | Filling(data: seq<Byte>, done: nat)

  datatype Consumer = Resting | Draining(len: nat, got: seq<Byte>, keep: bool) | Skipping(len: nat)

  /** What a call gave its caller: bytes, and how many had been consumed before them. */
  datatype Answer = Answer(at: nat, bytes: seq<Byte>)

  /** The shared structure, where the two threads are, and three histories: the bytes of all
      completed `fifo_in`, the bytes passed by all completed `fifo_out` and `fifo_skip`, and what
      `fifo_out` and `fifo_out_peek` have answered. */
  datatype Ring = Ring(size: nat, data: seq<Byte>, i: nat, o: nat, producer: Producer, consumer: Consumer,
                       sent: seq<Byte>, passed: seq<Byte>, answers: seq<Answer>)

  /** `Feed`, `Fetch`, `Look` and `Skip` are calls; `Produce` and `Consume` go on with one. */
  datatype Event =
    | Feed(bytes: seq<Byte>) | Produce
    | Fetch(len: nat) | Look(len: nat) | Skip(len: nat) | Consume

  predicate Shaped(s: Ring) {
    && |s.data| == s.size <= WORD / 2 && s.i < s.size && s.o < s.size
    && (s.producer.Filling? ==> s.producer.done <= |s.producer.data| < s.size)
    && (s.consumer.Draining? ==> |s.consumer.got| <= s.consumer.len < s.size)
    && (s.consumer.Skipping? ==> s.consumer.len < s.size)
  }

  /** One more byte of `fifo_copy_in`, or the new write index. */
  function Fill(s: Ring): Ring
    requires Shaped(s) && s.producer.Filling?
  {
    var d, k := s.producer.data, s.producer.done;
    if k < |d| then s.(data := s.data[Slot(s.i, k, |d|, s.size) := d[k]], producer := Filling(d, k + 1))
    else s.(i := Wrap(s.i + |d|, s.size), producer := Idle, sent := s.sent + d)
  }

  /** One more byte of `fifo_copy_out`, or the answer and the new read index. */
  function Drain(s: Ring): Ring
    requires Shaped(s) && s.consumer.Draining?
  {
    var len, got, keep := s.consumer.len, s.consumer.got, s.consumer.keep;
    if |got| < len then s.(consumer := Draining(len, got + [s.data[Slot(s.o, |got|, len, s.size)]], keep))
    else
      var s' := s.(consumer := Resting, answers := s.answers + [Answer(|s.passed|, got)]);
      if keep then s' else s'.(o := Wrap(s.o + len, s.size), passed := s.passed + got)
  }

  function Start(s: Ring, len: nat, c: Consumer): Ring
    requires Shaped(s)
  {
    if s.consumer != Resting || Len(s.i, s.o, s.size) < len then s else s.(consumer := c)
  }

  /** One step; a call that is refused, and one made while another is under way, change nothing. */
  function Next(s: Ring, e: Event): (s': Ring)
    requires Shaped(s)
    ensures Shaped(s') && s'.size == s.size
  {
    match e
    case Feed(bytes) =>
      if s.producer != Idle || s.size - 1 - Len(s.i, s.o, s.size) < |bytes| then s else s.(producer := Filling(bytes, 0))
    case Produce => if s.producer.Filling? then Fill(s) else s
    case Fetch(len) => Start(s, len, Draining(len, [], false))
    case Look(len) => Start(s, len, Draining(len, [], true))
    case Skip(len) => Start(s, len, Skipping(len))
    case Consume =>
      match s.consumer
      case Resting => s
      case Draining(_, _, _) => Drain(s)
      case Skipping(len) =>
        s.(consumer := Resting, o := Wrap(s.o + len, s.size), passed := s.passed + Window(s.data, s.o, len))
  }

  function After(s: Ring, es: seq<Event>): (s': Ring)
    requires Shaped(s)
    ensures Shaped(s')
    decreases |es|
  {
    if es == [] then s else After(Next(s, es[0]), es[1..])
  }

  // ---------------------------------------------------------------- the invariant

  /** Bytes copied in by a `fifo_in` under way. */
  function Copied(p: Producer): seq<Byte>
    requires p.Filling? ==> p.done <= |p.data|
  {
    if p.Filling? then p.data[..p.done] else []
  }

  /** From the read index on, the ring holds what has been sent and not yet passed, and then what
      a `fifo_in` under way has copied. */
  ghost predicate RingOk(s: Ring) {
    && Shaped(s) && s.passed <= s.sent
    && var n := |s.sent| - |s.passed|;
       && n + (if s.producer.Filling? then |s.producer.data| else 0) < s.size && s.i == Wrap(s.o + n, s.size)
       && Window(s.data, s.o, n + |Copied(s.producer)|) == s.sent[|s.passed|..] + Copied(s.producer)
  }

  predicate ConsumerOk(s: Ring) {
    match s.consumer
    case Resting => true
    case Draining(len, got, _) => |s.passed| + len <= |s.sent| && got <= s.sent[|s.passed|..]
    case Skipping(len) => |s.passed| + len <= |s.sent|
  }

  /** An answer is the stretch of the stream where it says it is. */
  predicate AnswerOk(sent: seq<Byte>, a: Answer) {
    a.at <= |sent| && a.bytes <= sent[a.at..]
  }

  ghost predicate Inv(s: Ring) {
    RingOk(s) && s.passed <= s.sent && ConsumerOk(s) && forall a :: a in s.answers ==> AnswerOk(s.sent, a)
  }
}
