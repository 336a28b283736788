/** Bounded waiting: when a queued thread gets its turn. */
module SchedFair {
  import opened Distinct
  import opened Sched
  import opened SchedRuns

  function Index(q: seq<Tid>, t: Tid): (i: nat)
    requires t in q
    ensures i < |q| && q[i] == t
  {
    if q[0] == t then 0 else 1 + Index(q[1..], t)
  }

  lemma {:induction false} IndexTail(q: seq<Tid>, t: Tid, x: Tid)
    requires t in q
    ensures Index(q + [x], t) == Index(q, t)
  {
    if q[0] != t {
      assert (q + [x])[1..] == q[1..] + [x];
      IndexTail(q[1..], t, x);
    }
  }

  lemma IndexFront(q: seq<Tid>, t: Tid, x: Tid)
    requires t in q && x != t
    ensures Index([x] + q, t) == 1 + Index(q, t)
  {
    assert ([x] + q)[1..] == q;
  }

  lemma WithoutFront(q: seq<Tid>, x: Tid, y: Tid)
    requires x != y
    ensures Without([x] + q, y) == [x] + Without(q, y)
  {
    assert ([x] + q)[1..] == q;
  }

  /** The thread that a CPU has peeked at and not yet taken off its queue. */
  function Pending(pc: Pc): Option<Tid> {
    match pc
    case Locking(Take(next), stage) => if stage == Done then None else Some(next)
    case _ => None
  }

  /** How many threads CPU `c` takes before `t`. */
  function Rank(q: seq<Tid>, pending: Option<Tid>, t: Tid): nat
    requires t in q
  {
    match pending
    case None => Index(q, t)
    case Some(next) =>
      if t == next then 0 else if t in Without(q, next) then 1 + Index(Without(q, next), t) else 0
  }

  function Wait(s: Sys, c: nat, t: Tid): nat
    requires c < Size(s) && t in s.cpus[c].queue
  {
    Rank(s.cpus[c].queue, Pending(s.cpus[c].pc), t)
  }

  /** This step takes the next thread off queue `c`. */
  predicate IsTake(s: Sys, d: nat, c: nat) {
    d == c < Size(s) && s.cpus[c].pc.Locking? && s.cpus[c].pc.goal.Take? && s.cpus[c].pc.stage == Held
  }

  /** This step puts a new thread on queue `c`, ahead of `t` unless `t` has already been picked. */
  predicate IsAhead(s: Sys, d: nat, c: nat, t: Tid) {
    && d < Size(s) && c < Size(s) && s.cpus[d].pc.Locking? && s.cpus[d].pc.goal.Add? && s.cpus[d].pc.stage == Held
    && s.cpus[d].pc.goal.target == c && Pending(s.cpus[c].pc) != Some(t)
  }

  lemma RankFront(q: seq<Tid>, pending: Option<Tid>, t: Tid, x: Tid)
    requires NoDup(q) && t in q && x !in q && (pending.Some? ==> pending.value in q)
    ensures t in [x] + q
    ensures Rank([x] + q, pending, t) == Rank(q, pending, t) + if pending == Some(t) then 0 else 1
  {
    match pending
    case None => IndexFront(q, t, x);
    case Some(next) =>
      WithoutFront(q, x, next);
      if t != next {
        IndexFront(Without(q, next), t, x);
      }
  }

  lemma RankPeek(q: seq<Tid>, t: Tid)
    requires NoDup(q) && t in q
    ensures Rank(q, Some(q[0]), t) == Index(q, t)
  {
    assert q == [q[0]] + q[1..];
    WithoutAbsent(q[1..], q[0]);
  }

  lemma RankTake(q: seq<Tid>, next: Tid, t: Tid)
    requires NoDup(q) && t in q && next in q
    ensures Rank(q, Some(next), t) == 0 <==> t == next
    ensures t != next ==> t in Without(q, next) && Rank(Without(q, next), None, t) == Rank(q, Some(next), t) - 1
  {
  }

  lemma QueueFacts(s: Sys, c: nat)
    requires Inv(s) && c < Size(s)
    ensures NoDup(s.cpus[c].queue)
    ensures Pending(s.cpus[c].pc).Some? ==> Pending(s.cpus[c].pc).value in s.cpus[c].queue
  {
    assert CpuOk(s, c);
  }

  /** A step that neither works on a list nor picks a thread for `c`. */
  lemma QuietStep(s: Sys, d: nat, a: Action, c: nat)
    requires c < Size(s)
    requires d < Size(s) ==> !(s.cpus[d].pc.Locking? && s.cpus[d].pc.stage == Held) && (d == c ==> !s.cpus[c].pc.Peek?)
    ensures var s' := Next(s, d, a);
      Size(s') == Size(s) && s'.cpus[c].queue == s.cpus[c].queue && Pending(s'.cpus[c].pc) == Pending(s.cpus[c].pc)
  {}

  /** What a step of CPU `d` from `s` to `s'` does to the wait of `t` on queue `c`: it shrinks by
      one when the CPU takes a thread, and `t` is the one taken exactly when its wait is zero; it
      grows by one when a new thread cuts in; nothing else changes it. */
  predicate WaitLaw(s: Sys, d: nat, s': Sys, c: nat, t: Tid)
    requires c < Size(s) && t in s.cpus[c].queue
  {
    && Size(s') == Size(s)
    && if IsTake(s, d, c) && Wait(s, c, t) == 0 then
         s'.cpus[c].pc == Locking(Take(t), Done) && t !in s'.cpus[c].queue
       else
         && t in s'.cpus[c].queue
         && Wait(s', c, t) == Wait(s, c, t) + (if IsAhead(s, d, c, t) then 1 else 0) - (if IsTake(s, d, c) then 1 else 0)
  }

  lemma WorkFacts(s: Sys, d: nat, g: Goal, c: nat)
    requires Inv(s) && c < Size(s) && d < Size(s) && s.cpus[d].pc == Locking(g, Held)
    ensures LockOf(g, d) < Size(s) && (g.Add? ==> g.thread !in s.cpus[c].queue)
    ensures NoDup(s.cpus[c].queue) && (Pending(s.cpus[c].pc).Some? ==> Pending(s.cpus[c].pc).value in s.cpus[c].queue)
  {
    QueueFacts(s, c);
    GoalInRange(s, d, g, Held);
    if g.Add? {
      assert At(s, g.thread, Hand(d)) && !At(s, g.thread, Queue(c));
    }
  }

  lemma TakeWait(s: Sys, d: nat, next: Tid, c: nat, t: Tid)
    requires c < Size(s) && t in s.cpus[c].queue && d < Size(s) && s.cpus[d].pc == Locking(Take(next), Held)
    requires NoDup(s.cpus[c].queue) && (d == c ==> next in s.cpus[c].queue)
    ensures WaitLaw(s, d, Next(s, d, Go), c, t)
  {
    if d == c {
      RankTake(s.cpus[c].queue, next, t);
    }
  }

  lemma BackWait(s: Sys, d: nat, prev: Tid, next: Tid, c: nat, t: Tid)
    requires c < Size(s) && t in s.cpus[c].queue && d < Size(s) && s.cpus[d].pc == Locking(PutBack(prev, next), Held)
    ensures WaitLaw(s, d, Next(s, d, Go), c, t)
  {
    IndexTail(s.cpus[c].queue, t, prev);
  }

  lemma AddWait(s: Sys, d: nat, x: Tid, target: nat, c: nat, t: Tid)
    requires c < Size(s) && t in s.cpus[c].queue && d < Size(s) && s.cpus[d].pc == Locking(Add(x, target), Held) && target < Size(s)
    requires NoDup(s.cpus[c].queue) && (Pending(s.cpus[c].pc).Some? ==> Pending(s.cpus[c].pc).value in s.cpus[c].queue)
    requires x !in s.cpus[c].queue
    ensures WaitLaw(s, d, Next(s, d, Go), c, t)
  {
    RankFront(s.cpus[c].queue, Pending(s.cpus[c].pc), t, x);
  }

  lemma WorkWait(s: Sys, d: nat, g: Goal, c: nat, t: Tid)
    requires c < Size(s) && t in s.cpus[c].queue && d < Size(s) && s.cpus[d].pc == Locking(g, Held) && LockOf(g, d) < Size(s)
    requires NoDup(s.cpus[c].queue) && (Pending(s.cpus[c].pc).Some? ==> Pending(s.cpus[c].pc).value in s.cpus[c].queue)
    requires g.Add? ==> g.thread !in s.cpus[c].queue
    ensures WaitLaw(s, d, Next(s, d, Go), c, t)
  {
    match g
    case Take(next) => TakeWait(s, d, next, c, t);
    case PutBack(prev, next) => BackWait(s, d, prev, next, c, t);
    case Drop(_, _) =>
    case Add(x, target) => AddWait(s, d, x, target, c, t);
  }

  lemma PeekWait(s: Sys, c: nat, t: Tid)
    requires Inv(s) && c < Size(s) && t in s.cpus[c].queue && s.cpus[c].pc.Peek?
    ensures WaitLaw(s, c, Next(s, c, Go), c, t)
  {
    QueueFacts(s, c);
    PeekDiffers(s, c);
    RankPeek(s.cpus[c].queue, t);
  }

  lemma WaitStep(s: Sys, d: nat, a: Action, c: nat, t: Tid)
    requires Inv(s) && c < Size(s) && t in s.cpus[c].queue
    ensures WaitLaw(s, d, Next(s, d, a), c, t)
  {
    if d < Size(s) && s.cpus[d].pc.Locking? && s.cpus[d].pc.stage == Held {
      WorkFacts(s, d, s.cpus[d].pc.goal, c);
      WorkWait(s, d, s.cpus[d].pc.goal, c, t);
    } else if d == c && s.cpus[c].pc.Peek? {
      PeekWait(s, c, t);
    } else {
      QuietStep(s, d, a, c);
    }
  }

  // ---------------------------------------------------------------- whole runs

  /** Threads that CPU `c` takes off its queue during a run. */
  function Takes(s: Sys, es: seq<Event>, c: nat): nat
    decreases |es|
  {
    if es == [] then 0
    else (if IsTake(s, es[0].cpu, c) then 1 else 0) + Takes(Next(s, es[0].cpu, es[0].action), es[1..], c)
  }

  /** New threads that cut in before `t`. */
  function Cuts(s: Sys, es: seq<Event>, c: nat, t: Tid): nat
    decreases |es|
  {
    if es == [] then 0
    else (if IsAhead(s, es[0].cpu, c, t) then 1 else 0) + Cuts(Next(s, es[0].cpu, es[0].action), es[1..], c, t)
  }

  /** `t` is on queue `c` all along. */
  predicate Waits(s: Sys, es: seq<Event>, c: nat, t: Tid)
    decreases |es|
  {
    && c < Size(s) && t in s.cpus[c].queue
    && (es != [] ==> Waits(Next(s, es[0].cpu, es[0].action), es[1..], c, t))
  }

  /** As long as `t` waits, its wait is what it was, plus the cuts, less the turns taken.  So it
      has had to let pass exactly that many. */
  lemma {:induction false} WaitOverRun(s: Sys, es: seq<Event>, c: nat, t: Tid)
    requires Inv(s) && Waits(s, es, c, t)
    ensures var s' := After(s, es);
      && Inv(s') && c < Size(s') && t in s'.cpus[c].queue
      && Wait(s', c, t) + Takes(s, es, c) == Wait(s, c, t) + Cuts(s, es, c, t)
    decreases |es|
  {
    if es != [] {
      var s1 := Next(s, es[0].cpu, es[0].action);
      NextKeeps(s, es[0].cpu, es[0].action);
      WaitStep(s, es[0].cpu, es[0].action, c, t);
      WaitOverRun(s1, es[1..], c, t);
    }
  }

  /** Bounded waiting.  Thread `t`, with `k` threads to go first, is taken by its CPU at turn
      number `k + 1 +` the cuts meanwhile, and at no other. */
  lemma Turn(s: Sys, es: seq<Event>, c: nat, t: Tid, a: Action)
    requires Inv(s) && Waits(s, es, c, t)
    requires IsTake(After(s, es), c, c)
    ensures var s' := Next(After(s, es), c, a);
      s'.cpus[c].pc == Locking(Take(t), Done) <==> Takes(s, es, c) + 1 == Wait(s, c, t) + 1 + Cuts(s, es, c, t)
  {
    WaitOverRun(s, es, c, t);
    WaitStep(After(s, es), c, a, c, t);
    TakeOther(After(s, es), c, a, t);
  }

  lemma TakeOther(s: Sys, c: nat, a: Action, t: Tid)
    requires Inv(s) && IsTake(s, c, c) && t in s.cpus[c].queue
    ensures Next(s, c, a).cpus[c].pc == Locking(Take(t), Done) <==> Wait(s, c, t) == 0
  {
    QueueFacts(s, c);
    RankTake(s.cpus[c].queue, s.cpus[c].pc.goal.next, t);
  }

  /** A thread once taken is the current one two steps of its CPU later, whatever the others do. */
  lemma Handover(s: Sys, c: nat, d: nat, a: Action, t: Tid)
    requires c < Size(s) && (s.cpus[c].pc == Locking(Take(t), Done) || s.cpus[c].pc == Switch(t))
    ensures var s' := Next(s, d, a);
      && Size(s') == Size(s)
      && (d != c ==> s'.cpus[c].pc == s.cpus[c].pc)
      && (d == c && s.cpus[c].pc == Locking(Take(t), Done) ==> s'.cpus[c].pc == Switch(t))
      && (d == c && s.cpus[c].pc == Switch(t) ==> s'.cpus[c].current == t)
  {}

  // ---------------------------------------------------------------- turns and calls

  /** CPU `c` is in a call of `schedule` that has found its queue non-empty and has not yet taken
      a thread. */
  predicate InCall(s: Sys, c: nat) {
    c < Size(s) && (s.cpus[c].pc.Peek? || Pending(s.cpus[c].pc).Some?)
  }

  function Calls(s: Sys, es: seq<Event>, c: nat): nat
    decreases |es|
  {
    if es == [] then 0
    else
      (if es[0].cpu == c < Size(s) && s.cpus[c].pc.Start? then 1 else 0) +
      Calls(Next(s, es[0].cpu, es[0].action), es[1..], c)
  }

  lemma CallStep(s: Sys, d: nat, a: Action, c: nat)
    requires c < Size(s) && s.cpus[c].queue != []
    requires d < Size(s) && s.cpus[d].pc.Locking? ==> LockOf(s.cpus[d].pc.goal, d) < Size(s)
    requires s.cpus[c].pc.Peek? ==> s.cpus[c].queue[0] != s.cpus[c].current
    ensures var s' := Next(s, d, a);
      (if InCall(s, c) then 1 else 0) + (if d == c && s.cpus[c].pc.Start? then 1 else 0) ==
      (if InCall(s', c) then 1 else 0) + (if IsTake(s, d, c) then 1 else 0)
  {
    if d == c {
      CallOwn(s, a, c);
    } else {
      OtherPc(s, d, a, c);
    }
  }

  lemma OtherPc(s: Sys, d: nat, a: Action, c: nat)
    requires c < Size(s) && d != c
    ensures Size(Next(s, d, a)) == Size(s) && Next(s, d, a).cpus[c].pc == s.cpus[c].pc
  {}

  lemma CallOwn(s: Sys, a: Action, c: nat)
    requires c < Size(s) && s.cpus[c].queue != []
    requires s.cpus[c].pc.Locking? ==> LockOf(s.cpus[c].pc.goal, c) < Size(s)
    requires s.cpus[c].pc.Peek? ==> s.cpus[c].queue[0] != s.cpus[c].current
    ensures var s' := Next(s, c, a);
      (if InCall(s, c) then 1 else 0) + (if s.cpus[c].pc.Start? then 1 else 0) ==
      (if InCall(s', c) then 1 else 0) + (if IsTake(s, c, c) then 1 else 0)
  {}

  lemma CallFacts(s: Sys, d: nat, c: nat)
    requires Inv(s) && c < Size(s)
    ensures d < Size(s) && s.cpus[d].pc.Locking? ==> LockOf(s.cpus[d].pc.goal, d) < Size(s)
    ensures s.cpus[c].pc.Peek? ==> s.cpus[c].queue != [] && s.cpus[c].queue[0] != s.cpus[c].current
  {
    if d < Size(s) && s.cpus[d].pc.Locking? {
      GoalInRange(s, d, s.cpus[d].pc.goal, s.cpus[d].pc.stage);
    }
    if s.cpus[c].pc.Peek? {
      PeekDiffers(s, c);
    }
  }

  /** While a thread waits, every call of `schedule` on its CPU takes exactly one thread, so that
      turns are calls. */
  lemma {:induction false} CallsAreTurns(s: Sys, es: seq<Event>, c: nat, t: Tid)
    requires Inv(s) && Waits(s, es, c, t)
    ensures (if InCall(s, c) then 1 else 0) + Calls(s, es, c) == Takes(s, es, c) + if InCall(After(s, es), c) then 1 else 0
    decreases |es|
  {
    if es != [] {
      NextKeeps(s, es[0].cpu, es[0].action);
      CallFacts(s, es[0].cpu, c);
      CallStep(s, es[0].cpu, es[0].action, c);
      CallsAreTurns(Next(s, es[0].cpu, es[0].action), es[1..], c, t);
    }
  }
}
