/** The per-CPU round-robin scheduler of schedule/schedule.c over the spinlock of libs/lock.c, as a
    machine in which any CPU may take the next step. */
module Sched {
  import opened Distinct

  /** A thread is named by its structure's address. */
  type Tid = nat

  datatype Option<+T> = None | Some(value: T)

  datatype Status = Runnable | Running | Exit

  /** What a CPU wants a run-queue lock for. */
  datatype Goal =
    | Take(next: Tid)
    | PutBack(prev: Tid, next: Tid)
    | Drop(prev: Tid, next: Tid)
    | Add(thread: Tid, target: nat)

  /** The steps of a locked section: read the counter, `cmpxchg` it, work on the list, unlock. */
  datatype Stage = Spin | Cas | Held | Done

  /** Where a CPU is. */
  datatype Pc =
    | Run
    | Start
    | Peek
    | Locking(goal: Goal, stage: Stage)
    | Switch(next: Tid)
    | Decide(prev: Tid, next: Tid)
    | MarkPrev(prev: Tid, next: Tid)
    | MarkNext(next: Tid)
    | Free(prev: Tid)

  datatype Cpu = Cpu(current: Tid, queue: seq<Tid>, lock: int, pc: Pc)

  /** `status` is defined on the live threads. */
  datatype Sys = Sys(cpus: seq<Cpu>, status: map<Tid, Status>)

  /** What the thread on a CPU does; `Go` takes the next step of a call under way.  `Spawn` gives
      the address that `kmalloc` returned. */
  datatype Action = Go | Spawn(thread: Tid, cpu: int) | Leave | Yield

  function Size(s: Sys): nat { |s.cpus| }

  function SetPc(s: Sys, c: nat, pc: Pc): Sys
    requires c < Size(s)
  {
    s.(cpus := s.cpus[c := s.cpus[c].(pc := pc)])
  }

  function SetQueue(s: Sys, c: nat, q: seq<Tid>): Sys
    requires c < Size(s)
  {
    s.(cpus := s.cpus[c := s.cpus[c].(queue := q)])
  }

  function SetLock(s: Sys, c: nat, v: int): Sys
    requires c < Size(s)
  {
    s.(cpus := s.cpus[c := s.cpus[c].(lock := v)])
  }

  function SetCurrent(s: Sys, c: nat, t: Tid): Sys
    requires c < Size(s)
  {
    s.(cpus := s.cpus[c := s.cpus[c].(current := t)])
  }

  function SetStatus(s: Sys, t: Tid, v: Status): Sys { s.(status := s.status[t := v]) }

  /** The run queue whose lock a goal needs. */
  function LockOf(g: Goal, c: nat): nat { if g.Add? then g.target else c }

  /** The list operation of a locked section.  `Drop` works on another list. */
  function Work(s: Sys, c: nat, g: Goal): Sys
    requires c < Size(s) && LockOf(g, c) < Size(s)
  {
    match g
    case Take(next) => SetQueue(s, c, Without(s.cpus[c].queue, next))
    case PutBack(prev, _) => SetQueue(s, c, s.cpus[c].queue + [prev])
    case Drop(_, _) => s
    case Add(t, target) => SetQueue(s, target, [t] + s.cpus[target].queue)
  }

  /** Where a CPU goes once it has unlocked. */
  function Onward(g: Goal): Pc {
    match g
    case Take(next) => Switch(next)
    case PutBack(prev, next) => MarkPrev(prev, next)
    case Drop(prev, _) => Free(prev)
    case Add(_, _) => Run
  }

  /** An action of the thread that CPU `c` runs. */
  function Act(s: Sys, c: nat, a: Action): Sys
    requires c < Size(s)
  {
    match a
    case Go => s
    case Spawn(t, cpu) =>
      if t in s.status then s
      else SetPc(SetStatus(s, t, Runnable), c, Locking(Add(t, if 0 <= cpu < Size(s) then cpu else c), Spin))
    case Leave => SetPc(SetStatus(s, s.cpus[c].current, Exit), c, Start)
    case Yield => SetPc(s, c, Start)
  }

  /** A step of `spin_lock` and of the section after it. */
  function LockStep(s: Sys, c: nat, g: Goal, stage: Stage): Sys
    requires c < Size(s) && LockOf(g, c) < Size(s)
  {
    var l := LockOf(g, c);
    match stage
    case Spin => if s.cpus[l].lock != 0 then s else SetPc(s, c, Locking(g, Cas))
    case Cas =>
      if s.cpus[l].lock != 0 then SetPc(s, c, Locking(g, Spin)) else SetPc(SetLock(s, l, 1), c, Locking(g, Held))
    case Held => SetPc(Work(s, c, g), c, Locking(g, Done))
    case Done => SetPc(SetLock(s, l, 0), c, Onward(g))
  }

  /** The other steps of `schedule`. */
  function PlainStep(s: Sys, c: nat): Sys
    requires c < Size(s)
  {
    var me := s.cpus[c];
    match me.pc
    case Start => SetPc(s, c, if me.queue == [] then Run else Peek)
    case Peek =>
      if me.queue == [] then s
      else if me.queue[0] == me.current then SetPc(s, c, Run)
      else SetPc(s, c, Locking(Take(me.queue[0]), Spin))
    case Switch(next) => SetPc(SetCurrent(s, c, next), c, Decide(me.current, next))
    case Decide(prev, next) =>
      SetPc(s, c, if prev in s.status && s.status[prev] == Exit then Locking(Drop(prev, next), Spin) else Locking(PutBack(prev, next), Spin))
    case MarkPrev(prev, next) => SetPc(SetStatus(s, prev, Runnable), c, MarkNext(next))
    case MarkNext(next) => SetPc(SetStatus(s, next, Running), c, Run)
    case Free(prev) => SetPc(s.(status := s.status - {prev}), c, Run)
    case _ => s
  }

  /** One step of CPU `c`. */
  function Next(s: Sys, c: nat, a: Action): Sys {
    if c >= Size(s) then s else
    match s.cpus[c].pc
    case Run => Act(s, c, a)
    case Locking(g, stage) => if LockOf(g, c) < Size(s) then LockStep(s, c, g, stage) else s
    case _ => PlainStep(s, c)
  }

  datatype Event = Event(cpu: nat, action: Action)

  /** A whole interleaving. */
  function After(s: Sys, es: seq<Event>): Sys
    decreases |es|
  {
    if es == [] then s else After(Next(s, es[0].cpu, es[0].action), es[1..])
  }

  // ---------------------------------------------------------------- where threads are

  datatype Place = Current(cpu: nat) | Queue(cpu: nat) | Hand(cpu: nat)

  /** The thread that a CPU has in its hands: taken off or not yet put on a queue, and not its
      current one. */
  function InHand(pc: Pc): Option<Tid> {
    match pc
    case Locking(g, stage) => if stage == Done then CarriedAfter(g) else Carried(g)
    case Switch(next) => Some(next)
    case Decide(prev, _) => Some(prev)
    case Free(prev) => Some(prev)
    case _ => None
  }

  function Carried(g: Goal): Option<Tid> {
    match g
    case Take(_) => None
    case PutBack(prev, _) => Some(prev)
    case Drop(prev, _) => Some(prev)
    case Add(t, _) => Some(t)
  }

  function CarriedAfter(g: Goal): Option<Tid> {
    match g
    case Take(next) => Some(next)
    case Drop(prev, _) => Some(prev)
    case _ => None
  }

  predicate At(s: Sys, t: Tid, p: Place) {
    p.cpu < Size(s) &&
    var cpu := s.cpus[p.cpu];
    match p
    case Current(_) => cpu.current == t
    case Queue(_) => t in cpu.queue
    case Hand(_) => InHand(cpu.pc) == Some(t)
  }

  ghost predicate Somewhere(s: Sys, t: Tid) { exists p :: At(s, t, p) }

  /** Every live thread is in exactly one place, and every thread that is anywhere is live. */
  ghost predicate Conserved(s: Sys) {
    && (forall t, p, q :: At(s, t, p) && At(s, t, q) ==> p == q)
    && (forall t :: Somewhere(s, t) <==> t in s.status)
  }

  // ---------------------------------------------------------------- locks

  /** CPU `c` is between lock and unlock of run queue `l`. */
  predicate Inside(s: Sys, c: nat, l: nat) {
    c < Size(s) && var pc := s.cpus[c].pc; pc.Locking? && (pc.stage == Held || pc.stage == Done) && LockOf(pc.goal, c) == l
  }

  ghost predicate Taken(s: Sys, l: nat) { exists c :: Inside(s, c, l) }

  ghost predicate LockOk(s: Sys, l: nat) {
    l < Size(s) ==> (s.cpus[l].lock == 0 || s.cpus[l].lock == 1) && (s.cpus[l].lock == 1 <==> Taken(s, l))
  }

  /** Sections on one lock exclude each other. */
  ghost predicate Exclusive(s: Sys) {
    && (forall c, d, l :: Inside(s, c, l) && Inside(s, d, l) ==> c == d)
    && (forall l :: LockOk(s, l))
  }

  // ---------------------------------------------------------------- statuses

  /** CPU `c` has put `t` on its queue but not yet marked it. */
  predicate Marking(pc: Pc, t: Tid) {
    match pc
    case Locking(PutBack(prev, _), Done) => prev == t
    case MarkPrev(prev, _) => prev == t
    case _ => false
  }

  predicate HasStatus(s: Sys, t: Tid, v: Status) { t in s.status && s.status[t] == v }

  /** What a CPU knows at each point. */
  predicate PcOk(s: Sys, c: nat)
    requires c < Size(s)
  {
    var me := s.cpus[c];
    match me.pc
    case Run => true
    case Start => true
    case Peek => me.queue != []
    case Locking(Take(next), stage) => (if stage == Done then next !in me.queue else next in me.queue) && HasStatus(s, next, Runnable)
    case Locking(PutBack(prev, next), stage) =>
      me.current == next && HasStatus(s, next, Runnable) && prev in s.status && s.status[prev] != Exit && (stage == Done ==> prev in me.queue)
    case Locking(Drop(prev, next), _) => me.current == next && HasStatus(s, next, Runnable) && HasStatus(s, prev, Exit)
    case Locking(Add(t, target), stage) => target < Size(s) && (stage != Done ==> HasStatus(s, t, Runnable))
    case Switch(next) => HasStatus(s, next, Runnable)
    case Decide(prev, next) => me.current == next && HasStatus(s, next, Runnable)
    case MarkPrev(prev, next) =>
      me.current == next && HasStatus(s, next, Runnable) && prev in me.queue && prev in s.status && s.status[prev] != Exit
    case MarkNext(next) => me.current == next && HasStatus(s, next, Runnable)
    case Free(prev) => HasStatus(s, prev, Exit) && HasStatus(s, me.current, Runnable)
  }

  /** Queued threads are runnable, but for one that its own CPU is about to mark so. */
  predicate QueueOk(s: Sys, c: nat)
    requires c < Size(s)
  {
    NoDup(s.cpus[c].queue) && forall t :: t in s.cpus[c].queue ==> HasStatus(s, t, Runnable) || Marking(s.cpus[c].pc, t)
  }

  predicate CpuOk(s: Sys, c: nat) { c < Size(s) ==> PcOk(s, c) && QueueOk(s, c) }

  ghost predicate AllOk(s: Sys) { forall c :: CpuOk(s, c) }

  ghost predicate Inv(s: Sys) { Conserved(s) && Exclusive(s) && AllOk(s) }
}
