/** Every interleaving of the producer and the consumer delivers the stream unharmed. */
module FifoRuns {
  import opened RingWindow
  import opened FifoIndex
  import opened FifoSteps

  lemma LenIs(s: Ring)
    requires RingOk(s)
    ensures Len(s.i, s.o, s.size) == |s.sent| - |s.passed|
  {}

  // ---------------------------------------------------------------- the producer

  lemma FeedKeeps(s: Ring, bytes: seq<Byte>)
    requires Inv(s)
    ensures Inv(Next(s, Feed(bytes)))
  {
    LenIs(s);
    assert bytes[..0] == [];
  }

  /** The slot written next belongs to no byte still to be read, nor to one just written. */
  lemma Clear(s: Ring, k: nat)
    requires RingOk(s) && s.producer.Filling? && s.producer.done < |s.producer.data|
    requires k < |s.sent| - |s.passed| + s.producer.done
    ensures var x := Slot(s.i, s.producer.done, |s.producer.data|, s.size);
      x == Wrap(s.o + (|s.sent| - |s.passed| + s.producer.done), s.size) && x != Wrap(s.o + k, s.size)
  {}

  lemma ByteKeeps(s: Ring)
    requires Inv(s) && s.producer.Filling? && s.producer.done < |s.producer.data|
    ensures Inv(Fill(s))
  {
    var d, k, n := s.producer.data, s.producer.done, |s.sent| - |s.passed|;
    assert Slot(s.i, k, |d|, s.size) == Wrap(s.o + (n + k), s.size);
    WindowPush(s.data, s.o, n + k, d[k]);
    assert d[..k + 1] == d[..k] + [d[k]];
  }

  lemma PublishKeeps(s: Ring)
    requires Inv(s) && s.producer.Filling? && s.producer.done == |s.producer.data|
    ensures Inv(Fill(s))
  {
    var s', d := Fill(s), s.producer.data;
    assert d[..|d|] == d && s'.sent[|s.passed|..] == s.sent[|s.passed|..] + d;
    forall a | a in s'.answers ensures AnswerOk(s'.sent, a) {
      assert AnswerOk(s.sent, a);
      assert s'.sent[a.at..] == s.sent[a.at..] + d;
    }
  }

  // ---------------------------------------------------------------- the consumer

  lemma StartKeeps(s: Ring, len: nat, c: Consumer)
    requires Inv(s) && (c == Skipping(len) || (c.Draining? && c.len == len && c.got == []))
    ensures Inv(Start(s, len, c))
  {
    LenIs(s);
  }

  lemma ReadKeeps(s: Ring)
    requires Inv(s) && s.consumer.Draining? && |s.consumer.got| < s.consumer.len
    ensures Inv(Drain(s))
  {
    var k, r := |s.consumer.got|, s.sent[|s.passed|..];
    assert Window(s.data, s.o, |r| + |Copied(s.producer)|)[k] == r[k];
    assert r[..k + 1] == r[..k] + [r[k]];
  }

  /** What the next `len` unread bytes are. */
  lemma Unread(s: Ring, len: nat)
    requires RingOk(s) && |s.passed| + len <= |s.sent|
    ensures len < s.size && Window(s.data, s.o, len) == s.sent[|s.passed|..|s.passed| + len]
  {
    var w := Window(s.data, s.o, |s.sent| - |s.passed| + |Copied(s.producer)|);
    WindowDrops(s.data, s.o, |w|, len);
    assert w[..len] == s.sent[|s.passed|..|s.passed| + len];
  }

  /** Passing over bytes that have been sent. */
  lemma PassKeeps(s: Ring, s': Ring, len: nat)
    requires Inv(s) && |s.passed| + len <= |s.sent|
    requires s' == s.(consumer := Resting, o := Wrap(s.o + len, s.size),
                      passed := s.passed + s.sent[|s.passed|..|s.passed| + len], answers := s'.answers)
    requires forall a :: a in s'.answers ==> AnswerOk(s.sent, a)
    ensures Inv(s')
  {
    assert s'.passed == s.sent[..|s.passed| + len];
    Slide(s.data, s.o, s.sent, |s.passed|, Copied(s.producer), len);
  }

  /** The read index moves `len` bytes on. */
  lemma Slide(d: seq<Byte>, o: nat, sent: seq<Byte>, r: nat, c: seq<Byte>, len: nat)
    requires o < |d| && r + len <= |sent| && |sent| - r + |c| < |d|
    requires Window(d, o, |sent| - r + |c|) == sent[r..] + c
    ensures Window(d, Wrap(o + len, |d|), |sent| - (r + len) + |c|) == sent[r + len..] + c
  {
    WindowDrops(d, o, |sent| - r + |c|, len);
    assert (sent[r..] + c)[len..] == sent[r + len..] + c;
  }

  lemma AnswerKeeps(s: Ring)
    requires Inv(s) && s.consumer.Draining? && |s.consumer.got| == s.consumer.len
    ensures Inv(Drain(s))
  {
    var r, got := |s.passed|, s.consumer.got;
    assert got == s.sent[r..r + |got|] && AnswerOk(s.sent, Answer(r, got));
    if !s.consumer.keep {
      PassKeeps(s, Drain(s), |got|);
    }
  }

  lemma SkipKeeps(s: Ring, len: nat)
    requires Inv(s) && s.consumer == Skipping(len)
    ensures Inv(Next(s, Consume))
  {
    Unread(s, len);
    PassKeeps(s, Next(s, Consume), len);
  }

  // ---------------------------------------------------------------- whole runs

  lemma NextKeeps(s: Ring, e: Event)
    requires Inv(s)
    ensures Inv(Next(s, e))
  {
    match e
    case Feed(bytes) => FeedKeeps(s, bytes);
    case Produce =>
      if s.producer.Filling? {
        if s.producer.done < |s.producer.data| {
          ByteKeeps(s);
        } else {
          PublishKeeps(s);
        }
      }
    case Fetch(len) => StartKeeps(s, len, Draining(len, [], false));
    case Look(len) => StartKeeps(s, len, Draining(len, [], true));
    case Skip(len) => StartKeeps(s, len, Skipping(len));
    case Consume =>
      match s.consumer {
        case Resting =>
        case Draining(len, got, _) =>
          if |got| < len {
            ReadKeeps(s);
          } else {
            AnswerKeeps(s);
          }
        case Skipping(len) => SkipKeeps(s, len);
      }
  }

  /** `fifo_init`. */
  function Init(data: seq<Byte>): Ring {
    Ring(|data|, data, 0, 0, Idle, Resting, [], [], [])
  }

  /** Over every interleaving, what has been consumed is a prefix of what has been produced, every
      answer is the right stretch of it, and what is unread is still in the ring. */
  lemma {:induction false} AlwaysPrefix(s: Ring, es: seq<Event>)
    requires Inv(s)
    ensures Inv(After(s, es)) && After(s, es).passed <= After(s, es).sent
    decreases |es|
  {
    if es != [] {
      NextKeeps(s, es[0]);
      AlwaysPrefix(Next(s, es[0]), es[1..]);
    }
  }

  lemma FromInit(data: seq<Byte>, es: seq<Event>)
    requires 0 < |data| <= WORD / 2
    ensures var s := After(Init(data), es);
      && s.passed <= s.sent && (forall a :: a in s.answers ==> AnswerOk(s.sent, a))
      && Shaped(s) && |s.sent| - |s.passed| < s.size
      && Window(s.data, s.o, |s.sent| - |s.passed|) == s.sent[|s.passed|..]
  {
    AlwaysPrefix(Init(data), es);
    var s := After(Init(data), es);
    Unread(s, |s.sent| - |s.passed|);
  }

  /** A call is refused exactly when the ring, as the stream has it at that moment, lacks room or
      bytes, whatever the other thread is doing. */
  lemma Refused(s: Ring, bytes: seq<Byte>, len: nat)
    requires Inv(s)
    ensures s.producer == Idle ==> (Next(s, Feed(bytes)) == s <==> |s.sent| - |s.passed| + |bytes| > s.size - 1)
    ensures s.consumer == Resting ==>
      && (Next(s, Fetch(len)) == s <==> len > |s.sent| - |s.passed|)
      && (Next(s, Look(len)) == s <==> len > |s.sent| - |s.passed|)
      && (Next(s, Skip(len)) == s <==> len > |s.sent| - |s.passed|)
  {
    LenIs(s);
  }
}
