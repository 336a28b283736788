/** The remaining steps, and safety over whole runs. */
module SchedRuns {
  import opened Distinct
  import opened Sched
  import opened SchedSafety
  import opened SchedSteps

  // ---------------------------------------------------------------- the list operations

  lemma TakeKnows(s: Sys, c: nat, next: Tid)
    requires AllOk(s) && c < Size(s) && s.cpus[c].pc == Locking(Take(next), Held)
    ensures AllOk(SetPc(Work(s, c, Take(next)), c, Locking(Take(next), Done)))
  {
    assert CpuOk(s, c);
    WithoutNoDup(s.cpus[c].queue, next);
    OthersKeep(s, SetPc(Work(s, c, Take(next)), c, Locking(Take(next), Done)), c, 0);
  }

  lemma PutBackKnows(s: Sys, c: nat, prev: Tid, next: Tid)
    requires AllOk(s) && c < Size(s) && s.cpus[c].pc == Locking(PutBack(prev, next), Held) && prev !in s.cpus[c].queue
    ensures AllOk(SetPc(Work(s, c, PutBack(prev, next)), c, Locking(PutBack(prev, next), Done)))
  {
    assert CpuOk(s, c);
    OthersKeep(s, SetPc(Work(s, c, PutBack(prev, next)), c, Locking(PutBack(prev, next), Done)), c, 0);
  }

  lemma DropKnows(s: Sys, c: nat, prev: Tid, next: Tid)
    requires AllOk(s) && c < Size(s) && s.cpus[c].pc == Locking(Drop(prev, next), Held)
    ensures AllOk(SetPc(s, c, Locking(Drop(prev, next), Done)))
  {
    assert CpuOk(s, c);
    OthersKeep(s, SetPc(s, c, Locking(Drop(prev, next), Done)), c, 0);
  }

  /** A new thread at the front of a queue. */
  lemma FrontKnows(s: Sys, l: nat, t: Tid)
    requires l < Size(s) && CpuOk(s, l) && HasStatus(s, t, Runnable) && t !in s.cpus[l].queue
    requires forall g :: s.cpus[l].pc == Locking(g, Done) && g.Take? ==> g.next != t
    ensures CpuOk(SetQueue(s, l, [t] + s.cpus[l].queue), l)
  {}

  lemma FrontAll(s: Sys, l: nat, t: Tid)
    requires AllOk(s) && l < Size(s) && HasStatus(s, t, Runnable) && t !in s.cpus[l].queue
    requires forall g :: s.cpus[l].pc == Locking(g, Done) && g.Take? ==> g.next != t
    ensures AllOk(SetQueue(s, l, [t] + s.cpus[l].queue))
  {
    assert CpuOk(s, l);
    FrontKnows(s, l, t);
    OthersKeep(s, SetQueue(s, l, [t] + s.cpus[l].queue), l, 0);
  }

  lemma AddKnows(s: Sys, c: nat, t: Tid, target: nat)
    requires AllOk(s) && c < Size(s) && target < Size(s) && s.cpus[c].pc == Locking(Add(t, target), Held)
    requires forall p :: At(s, t, p) <==> p == Hand(c)
    ensures AllOk(SetPc(Work(s, c, Add(t, target)), c, Locking(Add(t, target), Done)))
  {
    assert CpuOk(s, c);
    assert !At(s, t, Queue(target)) && (target != c ==> !At(s, t, Hand(target)));
    FrontAll(s, target, t);
    var s1 := SetQueue(s, target, [t] + s.cpus[target].queue);
    MoveKnows(s1, c, Locking(Add(t, target), Done));
  }

  lemma Works(s: Sys, c: nat, g: Goal)
    requires Inv(s) && c < Size(s) && s.cpus[c].pc == Locking(g, Held) && LockOf(g, c) < Size(s)
    ensures Inv(LockStep(s, c, g, Held))
  {
    var s' := LockStep(s, c, g, Held);
    LocksStay(s, s');
    assert CpuOk(s, c);
    match g
    case Take(next) =>
      TakeMoves(s, c, next);
      TakeKnows(s, c, next);
    case PutBack(prev, next) =>
      assert At(s, prev, Hand(c)) && !At(s, prev, Queue(c));
      PutBackMoves(s, c, prev, next);
      PutBackKnows(s, c, prev, next);
    case Drop(prev, next) =>
      StayPut(s, s');
      DropKnows(s, c, prev, next);
    case Add(t, target) =>
      assert At(s, t, Hand(c));
      AddMoves(s, c, t, target);
      AddKnows(s, c, t, target);
  }

  // ---------------------------------------------------------------- the other steps of schedule

  /** The thread peeked at without the lock is never the current one. */
  lemma PeekDiffers(s: Sys, c: nat)
    requires Inv(s) && c < Size(s) && s.cpus[c].pc == Peek
    ensures s.cpus[c].queue != [] && s.cpus[c].queue[0] != s.cpus[c].current
    ensures HasStatus(s, s.cpus[c].queue[0], Runnable)
  {
    assert CpuOk(s, c);
    assert At(s, s.cpus[c].queue[0], Queue(c)) && At(s, s.cpus[c].current, Current(c));
  }

  lemma Peeks(s: Sys, c: nat)
    requires Inv(s) && c < Size(s) && s.cpus[c].pc == Peek
    ensures Inv(PlainStep(s, c))
  {
    PeekDiffers(s, c);
    MoveKnows(s, c, Locking(Take(s.cpus[c].queue[0]), Spin));
    Moves(s, c, Locking(Take(s.cpus[c].queue[0]), Spin));
  }

  lemma Starts(s: Sys, c: nat)
    requires Inv(s) && c < Size(s) && s.cpus[c].pc == Start
    ensures Inv(PlainStep(s, c))
  {
    var pc := if s.cpus[c].queue == [] then Run else Peek;
    MoveKnows(s, c, pc);
    Moves(s, c, pc);
  }

  lemma SwitchKnows(s: Sys, c: nat, next: Tid)
    requires AllOk(s) && c < Size(s) && s.cpus[c].pc == Switch(next)
    ensures AllOk(PlainStep(s, c))
  {
    assert CpuOk(s, c);
    OthersKeep(s, PlainStep(s, c), c, 0);
  }

  lemma Switches(s: Sys, c: nat, next: Tid)
    requires Inv(s) && c < Size(s) && s.cpus[c].pc == Switch(next)
    ensures Inv(PlainStep(s, c))
  {
    SwitchSwaps(s, c, next);
    SwitchKnows(s, c, next);
    LocksStay(s, PlainStep(s, c));
  }

  lemma Decides(s: Sys, c: nat, prev: Tid, next: Tid)
    requires Inv(s) && c < Size(s) && s.cpus[c].pc == Decide(prev, next)
    ensures Inv(PlainStep(s, c))
  {
    assert CpuOk(s, c);
    assert At(s, prev, Hand(c));
    assert Somewhere(s, prev);
    var pc := Locking(if HasStatus(s, prev, Exit) then Drop(prev, next) else PutBack(prev, next), Spin);
    MoveKnows(s, c, pc);
    Moves(s, c, pc);
  }

  /** Writing the status of a thread in one of the CPU's own places. */
  lemma StatusStep(s: Sys, c: nat, t: Tid, v: Status, pc: Pc, p: Place)
    requires Inv(s) && c < Size(s) && At(s, t, p) && p.cpu == c && InHand(pc) == InHand(s.cpus[c].pc)
    requires forall l :: !Inside(s, c, l) && !Inside(SetPc(s, c, pc), c, l)
    requires forall d :: d == c ==> CpuOk(SetPc(SetStatus(s, t, v), c, pc), d)
    ensures Inv(SetPc(SetStatus(s, t, v), c, pc))
  {
    var s' := SetPc(SetStatus(s, t, v), c, pc);
    assert Somewhere(s, t);
    StayPut(s, s');
    LocksStay(s, s');
    StatusKnows(s, c, t, v, pc);
  }

  lemma StatusKnows(s: Sys, c: nat, t: Tid, v: Status, pc: Pc)
    requires AllOk(s) && c < Size(s) && forall p :: At(s, t, p) ==> p.cpu == c
    requires forall d :: d == c ==> CpuOk(SetPc(SetStatus(s, t, v), c, pc), d)
    ensures AllOk(SetPc(SetStatus(s, t, v), c, pc))
  {
    OthersKeep(s, SetPc(SetStatus(s, t, v), c, pc), c, t);
  }

  lemma MarksPrev(s: Sys, c: nat, prev: Tid, next: Tid)
    requires Inv(s) && c < Size(s) && s.cpus[c].pc == MarkPrev(prev, next)
    ensures Inv(PlainStep(s, c))
  {
    assert CpuOk(s, c);
    assert At(s, prev, Queue(c)) && At(s, next, Current(c));
    StatusStep(s, c, prev, Runnable, MarkNext(next), Queue(c));
  }

  lemma MarksNext(s: Sys, c: nat, next: Tid)
    requires Inv(s) && c < Size(s) && s.cpus[c].pc == MarkNext(next)
    ensures Inv(PlainStep(s, c))
  {
    assert CpuOk(s, c);
    assert At(s, next, Current(c));
    assert forall t :: t in s.cpus[c].queue ==> At(s, t, Queue(c));
    StatusStep(s, c, next, Running, Run, Current(c));
  }

  lemma FreeKnows(s: Sys, c: nat, prev: Tid)
    requires AllOk(s) && c < Size(s) && s.cpus[c].pc == Free(prev) && forall p :: At(s, prev, p) <==> p == Hand(c)
    ensures AllOk(SetPc(s.(status := s.status - {prev}), c, Run))
  {
    assert CpuOk(s, c);
    assert forall t :: t in s.cpus[c].queue ==> At(s, t, Queue(c));
    OthersKeep(s, SetPc(s.(status := s.status - {prev}), c, Run), c, prev);
  }

  lemma Frees(s: Sys, c: nat, prev: Tid)
    requires Inv(s) && c < Size(s) && s.cpus[c].pc == Free(prev)
    ensures Inv(PlainStep(s, c))
  {
    assert At(s, prev, Hand(c));
    FreeDies(s, c, prev);
    FreeKnows(s, c, prev);
    LocksStay(s, PlainStep(s, c));
  }

  // ---------------------------------------------------------------- whole runs

  lemma GoalInRange(s: Sys, c: nat, g: Goal, stage: Stage)
    requires Inv(s) && c < Size(s) && s.cpus[c].pc == Locking(g, stage)
    ensures LockOf(g, c) < Size(s)
  {
    assert CpuOk(s, c);
  }

  lemma NextKeeps(s: Sys, c: nat, a: Action)
    requires Inv(s)
    ensures Inv(Next(s, c, a))
  {
    if c < Size(s) {
      match s.cpus[c].pc
      case Run => Acts(s, c, a);
      case Locking(g, stage) =>
        GoalInRange(s, c, g, stage);
        match stage {
          case Spin => Spins(s, c, g);
          case Cas => Swaps(s, c, g);
          case Held => Works(s, c, g);
          case Done => Unlocks(s, c, g);
        }
      case Start => Starts(s, c);
      case Peek => Peeks(s, c);
      case Switch(next) => Switches(s, c, next);
      case Decide(prev, next) => Decides(s, c, prev, next);
      case MarkPrev(prev, next) => MarksPrev(s, c, prev, next);
      case MarkNext(next) => MarksNext(s, c, next);
      case Free(prev) => Frees(s, c, prev);
    }
  }

  /** `schedule_init` on every CPU: its idle thread runs, its queue is empty, its lock is free. */
  function Boot(n: nat): Sys {
    var cpus := seq(n, i requires 0 <= i < n => Cpu(i, [], 0, Run));
    Sys(cpus, map t: Tid | t < n && cpus[t].current == t :: Running)
  }

  lemma BootOk(n: nat)
    ensures Inv(Boot(n))
  {
    var s := Boot(n);
    forall t: Tid ensures Somewhere(s, t) <==> t in s.status {
      if t < n {
        assert At(s, t, Current(t));
      }
    }
    forall t, p, q | At(s, t, p) && At(s, t, q) ensures p == q {}
    forall l: nat ensures LockOk(s, l) {
      assert forall c :: !Inside(s, c, l);
    }
  }

  /** Over every interleaving from boot, each live thread is in exactly one place, locked sections
      exclude each other, and each CPU's knowledge and queue are sound. */
  lemma {:induction false} AlwaysSafe(s: Sys, es: seq<Event>)
    requires Inv(s)
    ensures Inv(After(s, es))
    decreases |es|
  {
    if es != [] {
      NextKeeps(s, es[0].cpu, es[0].action);
      AlwaysSafe(Next(s, es[0].cpu, es[0].action), es[1..]);
    }
  }

  /** The same, read off for one thread: it is some CPU's current, or on one queue, or in one
      CPU's hands, and never two of these; a queued one is runnable, or its own CPU has just put it
      back and is about to mark it so, and then it is still marked as running. */
  lemma SafeFromBoot(n: nat, es: seq<Event>, t: Tid)
    ensures var s := After(Boot(n), es);
      && (t in s.status <==> Somewhere(s, t))
      && (forall p, q :: At(s, t, p) && At(s, t, q) ==> p == q)
      && (forall c, d, l :: Inside(s, c, l) && Inside(s, d, l) ==> c == d)
      && (forall c: nat :: c < Size(s) && t in s.cpus[c].queue ==>
           HasStatus(s, t, Runnable) || (Marking(s.cpus[c].pc, t) && HasStatus(s, t, Running)))
  {
    BootOk(n);
    AlwaysSafe(Boot(n), es);
    var s := After(Boot(n), es);
    forall c: nat | c < Size(s) && t in s.cpus[c].queue
      ensures HasStatus(s, t, Runnable) || (Marking(s.cpus[c].pc, t) && HasStatus(s, t, Running))
    {
      assert CpuOk(s, c);
    }
  }
}
