/** What the scheduler writes into a thread's state, and when: a queued thread that is still marked
    as running, a running one that is not, and an exit that returns. */
module SchedStatus {
  import opened Sched
  import opened SchedRuns
  import opened SchedFair
  import opened SchedCalls

  // ---------------------------------------------------------------- queued but not runnable

  function Solo(current: Tid, q: seq<Tid>, lock: int, pc: Pc, st: map<Tid, Status>): Sys {
    Sys([Cpu(current, q, lock, pc)], st)
  }

  function Gos(n: nat): (es: seq<Event>)
    ensures |es| == n && forall i :: 0 <= i < n ==> es[i] == Event(0, Go)
  {
    seq(n, _ => Event(0, Go))
  }

  /** A locked section of a lone CPU, up to the unlocking. */
  lemma Section(current: Tid, q: seq<Tid>, g: Goal, st: map<Tid, Status>)
    requires LockOf(g, 0) == 0
    ensures After(Solo(current, q, 0, Locking(g, Spin), st), Gos(3)) ==
      SetPc(Work(Solo(current, q, 1, Locking(g, Held), st), 0, g), 0, Locking(g, Done))
  {
    var s := Solo(current, q, 0, Locking(g, Spin), st);
    var ss := [s, Solo(current, q, 0, Locking(g, Cas), st), Solo(current, q, 1, Locking(g, Held), st),
               SetPc(Work(Solo(current, q, 1, Locking(g, Held), st), 0, g), 0, Locking(g, Done))];
    assert ss[1] == Next(ss[0], 0, Go) && ss[2] == Next(ss[1], 0, Go) && ss[3] == Next(ss[2], 0, Go);
    AlongRun(ss, Gos(3));
  }

  /** Thread 0 creates thread 1. */
  lemma CreatesAlone(st: map<Tid, Status>)
    requires st == map[0 := Running, 1 := Runnable]
    ensures After(Boot(1), [Event(0, Spawn(1, 0))] + Gos(3)) == Solo(0, [1], 1, Locking(Add(1, 0), Done), st)
  {
    assert Boot(1) == Solo(0, [], 0, Run, map[0 := Running]);
    var s := Solo(0, [], 0, Locking(Add(1, 0), Spin), st);
    AlongRun([Boot(1), s], [Event(0, Spawn(1, 0))]);
    AfterTail(Boot(1), [Event(0, Spawn(1, 0))], Gos(3));
    Section(0, [], Add(1, 0), st);
    assert [1] + [] == [1];
  }

  /** It calls `schedule`, which picks thread 1. */
  lemma PicksAlone(st: map<Tid, Status>)
    ensures After(Solo(0, [1], 1, Locking(Add(1, 0), Done), st), [Event(0, Go), Event(0, Yield), Event(0, Go), Event(0, Go)]) ==
      Solo(0, [1], 0, Locking(Take(1), Spin), st)
  {
    var ss := [Solo(0, [1], 1, Locking(Add(1, 0), Done), st), Solo(0, [1], 0, Run, st), Solo(0, [1], 0, Start, st),
               Solo(0, [1], 0, Peek, st), Solo(0, [1], 0, Locking(Take(1), Spin), st)];
    assert ss[1] == Next(ss[0], 0, Go) && ss[2] == Next(ss[1], 0, Yield) && ss[3] == Next(ss[2], 0, Go) && ss[4] == Next(ss[3], 0, Go);
    AlongRun(ss, [Event(0, Go), Event(0, Yield), Event(0, Go), Event(0, Go)]);
  }

  /** It takes thread 1 off the queue and makes it the current one. */
  lemma SwitchesAlone(st: map<Tid, Status>)
    requires 0 in st && st[0] != Exit
    ensures After(Solo(0, [1], 0, Locking(Take(1), Spin), st), Gos(3) + Gos(3)) == Solo(1, [], 0, Locking(PutBack(0, 1), Spin), st)
  {
    Section(0, [1], Take(1), st);
    assert [1][1..] == [];
    var s := Solo(0, [], 1, Locking(Take(1), Done), st);
    var ss := [s, Solo(0, [], 0, Switch(1), st), Solo(1, [], 0, Decide(0, 1), st), Solo(1, [], 0, Locking(PutBack(0, 1), Spin), st)];
    assert ss[1] == Next(ss[0], 0, Go) && ss[2] == Next(ss[1], 0, Go) && ss[3] == Next(ss[2], 0, Go);
    AlongRun(ss, Gos(3));
    AfterTail(Solo(0, [1], 0, Locking(Take(1), Spin), st), Gos(3), Gos(3));
  }

  lemma BackOn(st: map<Tid, Status>)
    ensures After(Solo(1, [], 0, Locking(PutBack(0, 1), Spin), st), Gos(3)) == Solo(1, [0], 1, Locking(PutBack(0, 1), Done), st)
  {
    Section(1, [], PutBack(0, 1), st);
    assert [] + [0] == [0];
  }

  /** The steps of one CPU on which thread 0 creates thread 1 and yields to it. */
  function YieldSteps(): seq<Event> {
    [Event(0, Spawn(1, 0))] + Gos(3) + [Event(0, Go), Event(0, Yield), Event(0, Go), Event(0, Go)] + (Gos(3) + Gos(3)) + Gos(3)
  }

  /** Seventeen steps from boot after which thread 0 is on the queue and marked as running:
      `schedule` unlocks the queue before it writes the state of the thread it put back. */
  lemma QueuedRunning()
    ensures |YieldSteps()| == 17
    ensures var s := After(Boot(1), YieldSteps()); Size(s) == 1 && 0 in s.cpus[0].queue && HasStatus(s, 0, Running)
  {
    var st := map[0 := Running, 1 := Runnable];
    var e1, e2 := [Event(0, Spawn(1, 0))] + Gos(3), [Event(0, Go), Event(0, Yield), Event(0, Go), Event(0, Go)];
    CreatesAlone(st);
    PicksAlone(st);
    SwitchesAlone(st);
    BackOn(st);
    AfterTail(Boot(1), e1, e2);
    AfterTail(Boot(1), e1 + e2, Gos(3) + Gos(3));
    AfterTail(Boot(1), e1 + e2 + (Gos(3) + Gos(3)), Gos(3));
  }

  // ---------------------------------------------------------------- running but not marked

  /** The two ways a call of `schedule` that has switched ends: with the new thread marked as
      running if the old one went back on the queue, with the new one still marked as runnable if
      the old one had exited. */
  lemma ReturnStatus(s: Sys, c: nat, a: Action)
    requires Inv(s) && c < Size(s) && (s.cpus[c].pc.MarkNext? || s.cpus[c].pc.Free?)
    ensures var s' := Next(s, c, a);
      && Size(s') == Size(s) && s'.cpus[c].pc == Run && s'.cpus[c].current == s.cpus[c].current
      && HasStatus(s', s'.cpus[c].current, if s.cpus[c].pc.MarkNext? then Running else Runnable)
  {
    assert CpuOk(s, c);
  }

  /** Which of the two it is was settled when `schedule` looked at the old thread. */
  lemma ExitDecides(s: Sys, c: nat, a: Action)
    requires Inv(s) && c < Size(s) && s.cpus[c].pc.Decide?
    ensures var pc, pc' := s.cpus[c].pc, Next(s, c, a).cpus[c].pc;
      pc' == Locking(if HasStatus(s, pc.prev, Exit) then Drop(pc.prev, pc.next) else PutBack(pc.prev, pc.next), Spin)
  {}

  // ---------------------------------------------------------------- an exit that returns

  /** Another CPU's step leaves a CPU's current thread and its state alone. */
  lemma OtherCurrent(s: Sys, d: nat, a: Action, c: nat)
    requires Inv(s) && c < Size(s) && d != c
    ensures var s' := Next(s, d, a);
      && Size(s') == Size(s) && s'.cpus[c].current == s.cpus[c].current && s'.cpus[c].pc == s.cpus[c].pc
      && forall v :: HasStatus(s, s.cpus[c].current, v) ==> HasStatus(s', s.cpus[c].current, v)
  {
    OtherPc(s, d, a, c);
    var t := s.cpus[c].current;
    assert At(s, t, Current(c));
    if d < Size(s) {
      assert CpuOk(s, d);
      assert !At(s, t, Current(d)) && !At(s, t, Queue(d)) && !At(s, t, Hand(d));
      assert At(s, s.cpus[d].current, Current(d));
    }
  }

  lemma {:induction false} OtherRun(s: Sys, es: seq<Event>, c: nat, v: Status)
    requires Inv(s) && c < Size(s) && Steps(es, c) == 0 && HasStatus(s, s.cpus[c].current, v)
    ensures var s' := After(s, es);
      && Inv(s') && Size(s') == Size(s) && s'.cpus[c].current == s.cpus[c].current && s'.cpus[c].pc == s.cpus[c].pc
      && HasStatus(s', s.cpus[c].current, v)
    decreases |es|
  {
    if es != [] {
      OtherCurrent(s, es[0].cpu, es[0].action, c);
      NextKeeps(s, es[0].cpu, es[0].action);
      OtherRun(Next(s, es[0].cpu, es[0].action), es[1..], c, v);
    }
  }

  /** `thread_exit` comes back to its caller, which has exited, if and only if the queue is empty
      when `schedule` looks at it; otherwise the CPU goes on to take another thread. */
  lemma ExitReturns(s: Sys, c: nat, es: seq<Event>, a: Action)
    requires Inv(s) && c < Size(s) && s.cpus[c].pc == Run && Steps(es, c) == 0
    ensures var t, s1 := s.cpus[c].current, After(Next(s, c, Leave), es);
      && c < Size(s1) && s1.cpus[c].current == t && s1.cpus[c].pc == Start
      && var s2 := Next(s1, c, a);
         && c < Size(s2) && s2.cpus[c].current == t && HasStatus(s2, t, Exit)
         && s2.cpus[c].pc == if s1.cpus[c].queue == [] then Run else Peek
  {
    NextKeeps(s, c, Leave);
    OtherRun(Next(s, c, Leave), es, c, Exit);
  }

  /** Once past that test the call never comes back with the same thread. */
  lemma PeekTakes(s: Sys, c: nat, a: Action)
    requires Inv(s) && c < Size(s) && s.cpus[c].pc == Peek
    ensures s.cpus[c].queue != [] && s.cpus[c].queue[0] != s.cpus[c].current
    ensures Next(s, c, a).cpus[c].pc == Locking(Take(s.cpus[c].queue[0]), Spin)
  {
    PeekDiffers(s, c);
  }
}
