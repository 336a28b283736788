/** Every step of every CPU keeps the scheduler's invariant. */
module SchedSteps {
  import opened Sched
  import opened SchedSafety

  predicate SameStatus(s: Sys, s': Sys, t: Tid) {
    (t in s'.status <==> t in s.status) && (t in s.status ==> s'.status[t] == s.status[t])
  }

  predicate SameButLock(a: Cpu, b: Cpu) { a.current == b.current && a.queue == b.queue && a.pc == b.pc }

  /** What a CPU knows depends only on itself and on the threads in its own places. */
  lemma KeepCpu(s: Sys, s': Sys, d: nat)
    requires d < Size(s) == Size(s') && CpuOk(s, d) && SameButLock(s.cpus[d], s'.cpus[d])
    requires forall t, p: Place :: p.cpu == d && At(s, t, p) ==> SameStatus(s, s', t)
    ensures CpuOk(s', d)
  {
    var me := s.cpus[d];
    assert At(s, me.current, Current(d));
    forall t | t in me.queue ensures SameStatus(s, s', t) {
      assert At(s, t, Queue(d));
    }
    if InHand(me.pc).Some? {
      assert At(s, InHand(me.pc).value, Hand(d));
    }
    KnowsSame(s, s', d);
  }

  lemma KnowsSame(s: Sys, s': Sys, d: nat)
    requires d < Size(s) == Size(s') && PcOk(s, d) && SameButLock(s.cpus[d], s'.cpus[d])
    requires SameStatus(s, s', s.cpus[d].current) && forall t :: t in s.cpus[d].queue ==> SameStatus(s, s', t)
    requires InHand(s.cpus[d].pc).Some? ==> SameStatus(s, s', InHand(s.cpus[d].pc).value)
    ensures PcOk(s', d)
  {}

  /** Only CPU `c` has moved, and only the status of a thread of its own, or of a new one, has
      changed. */
  ghost predicate OwnStep(s: Sys, s': Sys, c: nat, t: Tid) {
    && c < Size(s) == Size(s')
    && (forall d :: 0 <= d < Size(s) && d != c ==> SameButLock(s.cpus[d], s'.cpus[d]))
    && (forall x :: x != t ==> SameStatus(s, s', x))
    && (SameStatus(s, s', t) || (forall p :: At(s, t, p) ==> p.cpu == c))
  }

  lemma OthersKeep(s: Sys, s': Sys, c: nat, t: Tid)
    requires AllOk(s) && OwnStep(s, s', c, t) && forall d :: d == c ==> CpuOk(s', d)
    ensures AllOk(s')
  {
    forall d: nat ensures CpuOk(s', d) {
      assert d == c ==> CpuOk(s', d);
      if d < Size(s) && d != c {
        assert CpuOk(s, d);
        KeepCpu(s, s', d);
      }
    }
  }

  // ---------------------------------------------------------------- thread actions

  lemma SpawnKnows(s: Sys, c: nat, t: Tid, target: nat)
    requires AllOk(s) && c < Size(s) && s.cpus[c].pc == Run && target < Size(s) && forall p :: !At(s, t, p)
    ensures AllOk(SetPc(SetStatus(s, t, Runnable), c, Locking(Add(t, target), Spin)))
  {
    var s' := SetPc(SetStatus(s, t, Runnable), c, Locking(Add(t, target), Spin));
    assert CpuOk(s, c);
    assert forall x :: x in s.cpus[c].queue ==> At(s, x, Queue(c));
    OthersKeep(s, s', c, t);
  }

  lemma Spawns(s: Sys, c: nat, t: Tid, target: nat)
    requires Inv(s) && c < Size(s) && s.cpus[c].pc == Run && t !in s.status && target < Size(s)
    ensures Inv(SetPc(SetStatus(s, t, Runnable), c, Locking(Add(t, target), Spin)))
  {
    forall p ensures !At(s, t, p) {
      assert At(s, t, p) ==> Somewhere(s, t);
    }
    SpawnBorn(s, c, t, target);
    SpawnKnows(s, c, t, target);
    LocksStay(s, SetPc(SetStatus(s, t, Runnable), c, Locking(Add(t, target), Spin)));
  }

  lemma LeaveKnows(s: Sys, c: nat, t: Tid)
    requires AllOk(s) && c < Size(s) && s.cpus[c].pc == Run && forall p :: At(s, t, p) <==> p == Current(c)
    ensures AllOk(SetPc(SetStatus(s, t, Exit), c, Start))
  {
    assert CpuOk(s, c);
    forall x | x in s.cpus[c].queue ensures x != t {
      assert At(s, x, Queue(c));
    }
    OthersKeep(s, SetPc(SetStatus(s, t, Exit), c, Start), c, t);
  }

  lemma Leaves(s: Sys, c: nat)
    requires Inv(s) && c < Size(s) && s.cpus[c].pc == Run
    ensures Inv(SetPc(SetStatus(s, s.cpus[c].current, Exit), c, Start))
  {
    var t := s.cpus[c].current;
    var s' := SetPc(SetStatus(s, t, Exit), c, Start);
    assert At(s, t, Current(c));
    assert Somewhere(s, t);
    StayPut(s, s');
    LocksStay(s, s');
    LeaveKnows(s, c, t);
  }

  lemma MoveKnows(s: Sys, c: nat, pc: Pc)
    requires AllOk(s) && c < Size(s) && PcOk(SetPc(s, c, pc), c)
    requires forall t :: Marking(s.cpus[c].pc, t) ==> Marking(pc, t)
    ensures AllOk(SetPc(s, c, pc))
  {
    assert CpuOk(s, c);
    OthersKeep(s, SetPc(s, c, pc), c, 0);
  }

  /** A step that only moves one CPU on, with nothing in or out of its hands or a section. */
  lemma Moves(s: Sys, c: nat, pc: Pc)
    requires Inv(s) && c < Size(s) && InHand(pc) == InHand(s.cpus[c].pc) && AllOk(SetPc(s, c, pc))
    requires forall l :: !Inside(s, c, l) && !Inside(SetPc(s, c, pc), c, l)
    ensures Inv(SetPc(s, c, pc))
  {
    var s' := SetPc(s, c, pc);
    StayPut(s, s');
    LocksStay(s, s');
  }

  lemma Acts(s: Sys, c: nat, a: Action)
    requires Inv(s) && c < Size(s) && s.cpus[c].pc == Run
    ensures Inv(Act(s, c, a))
  {
    match a
    case Go =>
    case Spawn(t, cpu) =>
      if t !in s.status {
        Spawns(s, c, t, if 0 <= cpu < Size(s) then cpu else c);
      }
    case Leave => Leaves(s, c);
    case Yield =>
      MoveKnows(s, c, Start);
      Moves(s, c, Start);
  }

  // ---------------------------------------------------------------- spin_lock

  /** Between the stages of a section. */
  lemma StageKnows(s: Sys, c: nat, l: nat, v: int, g: Goal, from: Stage, to: Stage)
    requires AllOk(s) && c < Size(s) && l < Size(s) && s.cpus[c].pc == Locking(g, from) && from != Done && to != Done
    ensures AllOk(SetPc(SetLock(s, l, v), c, Locking(g, to)))
  {
    var s' := SetPc(SetLock(s, l, v), c, Locking(g, to));
    assert CpuOk(s, c);
    OthersKeep(s, s', c, 0);
  }

  lemma SameLock(s: Sys, l: nat)
    requires l < Size(s)
    ensures SetLock(s, l, s.cpus[l].lock) == s
  {}

  lemma Spins(s: Sys, c: nat, g: Goal)
    requires Inv(s) && c < Size(s) && s.cpus[c].pc == Locking(g, Spin) && LockOf(g, c) < Size(s)
    ensures Inv(LockStep(s, c, g, Spin))
  {
    SameLock(s, c);
    StageKnows(s, c, c, s.cpus[c].lock, g, Spin, Cas);
    if s.cpus[LockOf(g, c)].lock == 0 {
      Moves(s, c, Locking(g, Cas));
    }
  }

  lemma Swaps(s: Sys, c: nat, g: Goal)
    requires Inv(s) && c < Size(s) && s.cpus[c].pc == Locking(g, Cas) && LockOf(g, c) < Size(s)
    ensures Inv(LockStep(s, c, g, Cas))
  {
    var l := LockOf(g, c);
    if s.cpus[l].lock != 0 {
      SameLock(s, c);
      StageKnows(s, c, c, s.cpus[c].lock, g, Cas, Spin);
      Moves(s, c, Locking(g, Spin));
    } else {
      StageKnows(s, c, l, 1, g, Cas, Held);
      StayPut(s, SetPc(SetLock(s, l, 1), c, Locking(g, Held)));
      CasEnters(s, c, g);
    }
  }

  lemma UnlockKnows(s: Sys, c: nat, g: Goal)
    requires AllOk(s) && c < Size(s) && s.cpus[c].pc == Locking(g, Done) && LockOf(g, c) < Size(s)
    ensures AllOk(SetPc(SetLock(s, LockOf(g, c), 0), c, Onward(g)))
  {
    assert CpuOk(s, c);
    OthersKeep(s, SetPc(SetLock(s, LockOf(g, c), 0), c, Onward(g)), c, 0);
  }

  lemma Unlocks(s: Sys, c: nat, g: Goal)
    requires Inv(s) && c < Size(s) && s.cpus[c].pc == Locking(g, Done) && LockOf(g, c) < Size(s)
    ensures Inv(LockStep(s, c, g, Done))
  {
    StayPut(s, SetPc(SetLock(s, LockOf(g, c), 0), c, Onward(g)));
    UnlockLeaves(s, c, g);
    UnlockKnows(s, c, g);
  }
}
