/** Where a new thread ends up: on the run queue of the CPU that `thread_run` was asked for, whatever
    the other CPUs do meanwhile. */
module SchedPlace {
  import opened Sched
  import opened SchedRuns
  import opened SchedFair
  import opened SchedCalls

  /** The CPU that is asked for if there is one of that number, and the caller's own otherwise. */
  function Asked(n: nat, cpu: int, c: nat): nat { if 0 <= cpu < n then cpu else c }

  /** CPU `c` has the new thread in its hands and not yet put it on queue `q`. */
  predicate Placing(s: Sys, c: nat, t: Tid, q: nat) {
    && c < Size(s) && q < Size(s)
    && s.cpus[c].pc.Locking? && s.cpus[c].pc.goal == Add(t, q) && s.cpus[c].pc.stage != Done
  }

  /** It has done so: the next step unlocks. */
  predicate Placed(s: Sys, c: nat, t: Tid, q: nat) {
    c < Size(s) && s.cpus[c].pc == Locking(Add(t, q), Done)
  }

  lemma SpawnStarts(s: Sys, c: nat, t: Tid, cpu: int)
    requires c < Size(s) && s.cpus[c].pc == Run && t !in s.status
    ensures Placing(Next(s, c, Spawn(t, cpu)), c, t, Asked(Size(s), cpu, c))
  {}

  /** While the thread is in hand, each step leaves it there or puts it on its queue, at the front. */
  lemma PlaceStep(s: Sys, c: nat, t: Tid, q: nat, d: nat, a: Action)
    requires Placing(s, c, t, q)
    ensures var s' := Next(s, d, a);
      && Size(s') == Size(s)
      && if d == c && s.cpus[c].pc.stage == Held then Placed(s', c, t, q) && s'.cpus[q].queue == [t] + s.cpus[q].queue
         else Placing(s', c, t, q)
  {
    if d != c {
      OtherPc(s, d, a, c);
    }
  }

  /** The thread is in the hands of CPU `c` all along. */
  predicate InHandAlong(s: Sys, es: seq<Event>, c: nat, t: Tid)
    decreases |es|
  {
    At(s, t, Hand(c)) && (es != [] ==> InHandAlong(Next(s, es[0].cpu, es[0].action), es[1..], c, t))
  }

  lemma {:induction false} StillPlacing(s: Sys, es: seq<Event>, c: nat, t: Tid, q: nat)
    requires Placing(s, c, t, q) && InHandAlong(s, es, c, t)
    ensures Placing(After(s, es), c, t, q) && Size(After(s, es)) == Size(s)
    decreases |es|
  {
    if es != [] {
      PlaceStep(s, c, t, q, es[0].cpu, es[0].action);
      var s1 := Next(s, es[0].cpu, es[0].action);
      assert At(s1, t, Hand(c));
      assert !Placed(s1, c, t, q);
      StillPlacing(s1, es[1..], c, t, q);
    }
  }

  /** `thread_run(.., cpu)` on CPU `c`, over every interleaving: until its list operation the new
      thread is in the hands of CPU `c` and nowhere else; the step that ends this is that operation,
      and leaves the thread at the front of the queue of CPU `cpu` if there is such a CPU, and of
      CPU `c` otherwise. */
  lemma Lands(s: Sys, c: nat, t: Tid, cpu: int, es: seq<Event>, d: nat, a: Action)
    requires Inv(s) && c < Size(s) && s.cpus[c].pc == Run && t !in s.status
    requires InHandAlong(Next(s, c, Spawn(t, cpu)), es, c, t)
    ensures var q, s2 := if 0 <= cpu < Size(s) then cpu else c, After(Next(s, c, Spawn(t, cpu)), es);
      var s3 := Next(s2, d, a);
      && Size(s2) == Size(s) == Size(s3) && (forall p :: At(s2, t, p) <==> p == Hand(c))
      && (At(s3, t, Hand(c)) || (d == c && s3.cpus[q].queue == [t] + s2.cpus[q].queue))
      && (!At(s3, t, Hand(c)) <==> d == c && s2.cpus[c].pc.Locking? && s2.cpus[c].pc.stage == Held)
  {
    var s1 := Next(s, c, Spawn(t, cpu));
    var q := Asked(Size(s), cpu, c);
    SpawnStarts(s, c, t, cpu);
    StillPlacing(s1, es, c, t, q);
    NextKeeps(s, c, Spawn(t, cpu));
    AlwaysSafe(s1, es);
    PlaceStep(After(s1, es), c, t, q, d, a);
    assert At(After(s1, es), t, Hand(c));
  }

  /** Alone, and with the queue's lock free, it takes three more steps. */
  lemma LandsAlone(s: Sys, c: nat, t: Tid, cpu: int)
    requires c < Size(s) && s.cpus[c].pc == Run && t !in s.status
    requires s.cpus[Asked(Size(s), cpu, c)].lock == 0
    ensures var q, s' := Asked(Size(s), cpu, c), After(s, [Event(c, Spawn(t, cpu)), Event(c, Go), Event(c, Go), Event(c, Go)]);
      Size(s') == Size(s) && s'.cpus[q].queue == [t] + s.cpus[q].queue
  {
    var q := Asked(Size(s), cpu, c);
    var s1 := Next(s, c, Spawn(t, cpu));
    var s2 := Next(s1, c, Go);
    var s3 := Next(s2, c, Go);
    SpawnStarts(s, c, t, cpu);
    assert s1.cpus[c].pc == Locking(Add(t, q), Spin) && s1.cpus[q].lock == 0 && s1.cpus[q].queue == s.cpus[q].queue;
    assert s2.cpus[c].pc == Locking(Add(t, q), Cas) && s2.cpus[q].lock == 0 && s2.cpus[q].queue == s.cpus[q].queue;
    assert s3.cpus[c].pc == Locking(Add(t, q), Held) && s3.cpus[q].queue == s.cpus[q].queue;
    PlaceStep(s3, c, t, q, c, Go);
    AlongRun([s, s1, s2, s3, Next(s3, c, Go)], [Event(c, Spawn(t, cpu)), Event(c, Go), Event(c, Go), Event(c, Go)]);
  }
}
