/** Safety of the scheduler over every interleaving: no thread is lost or doubled, locked sections
    exclude each other, queued threads are runnable. */
module SchedSafety {
  import opened Distinct
  import opened Sched

  // ---------------------------------------------------------------- conservation

  ghost predicate SamePlaces(s: Sys, s': Sys) {
    forall t, p :: At(s', t, p) <==> At(s, t, p)
  }

  lemma Stay(s: Sys, s': Sys)
    requires Conserved(s) && SamePlaces(s, s') && s'.status.Keys == s.status.Keys
    ensures Conserved(s')
  {
    forall t ensures Somewhere(s', t) <==> t in s'.status {
      assert Somewhere(s, t) <==> t in s.status;
      if Somewhere(s, t) {
        var p :| At(s, t, p);
        assert At(s', t, p);
      }
      if Somewhere(s', t) {
        var p :| At(s', t, p);
        assert At(s, t, p);
      }
    }
  }

  /** Thread `t` is now at `q` and nowhere else; no other thread has moved. */
  ghost predicate Moved(s: Sys, s': Sys, t: Tid, q: Place) {
    && (forall x, p :: x != t ==> (At(s', x, p) <==> At(s, x, p)))
    && (forall p :: At(s', t, p) <==> p == q)
  }

  lemma Others(s: Sys, s': Sys, x: Tid)
    requires forall p :: At(s', x, p) <==> At(s, x, p)
    ensures Somewhere(s', x) <==> Somewhere(s, x)
  {
    if Somewhere(s, x) {
      var p :| At(s, x, p);
      assert At(s', x, p);
    }
    if Somewhere(s', x) {
      var p :| At(s', x, p);
      assert At(s, x, p);
    }
  }

  lemma Move(s: Sys, s': Sys, t: Tid, q: Place)
    requires Conserved(s) && Moved(s, s', t, q) && s'.status.Keys == s.status.Keys + {t}
    ensures Conserved(s')
  {
    assert At(s', t, q);
    forall x ensures Somewhere(s', x) <==> x in s'.status {
      if x != t {
        Others(s, s', x);
        assert Somewhere(s, x) <==> x in s.status;
      }
    }
  }

  // ---------------------------------------------------------------- a section's list operation

  lemma TakeMoves(s: Sys, c: nat, next: Tid)
    requires Conserved(s) && c < Size(s) && s.cpus[c].pc == Locking(Take(next), Held)
    requires next in s.cpus[c].queue && NoDup(s.cpus[c].queue)
    ensures Conserved(SetPc(Work(s, c, Take(next)), c, Locking(Take(next), Done)))
  {
    var s' := SetPc(Work(s, c, Take(next)), c, Locking(Take(next), Done));
    assert At(s, next, Queue(c));
    forall p ensures At(s', next, p) <==> p == Hand(c) {
      assert At(s, next, p) ==> p == Queue(c);
    }
    assert s'.status.Keys == s.status.Keys + {next} by {
      assert Somewhere(s, next);
    }
    Move(s, s', next, Hand(c));
  }

  lemma PutBackMoves(s: Sys, c: nat, prev: Tid, next: Tid)
    requires Conserved(s) && c < Size(s) && s.cpus[c].pc == Locking(PutBack(prev, next), Held)
    ensures Conserved(SetPc(Work(s, c, PutBack(prev, next)), c, Locking(PutBack(prev, next), Done)))
  {
    var s' := SetPc(Work(s, c, PutBack(prev, next)), c, Locking(PutBack(prev, next), Done));
    assert At(s, prev, Hand(c));
    forall p ensures At(s', prev, p) <==> p == Queue(c) {
      assert At(s, prev, p) ==> p == Hand(c);
    }
    assert s'.status.Keys == s.status.Keys + {prev} by {
      assert Somewhere(s, prev);
    }
    Move(s, s', prev, Queue(c));
  }

  lemma AddMoves(s: Sys, c: nat, t: Tid, target: nat)
    requires Conserved(s) && c < Size(s) && target < Size(s) && s.cpus[c].pc == Locking(Add(t, target), Held)
    ensures Conserved(SetPc(Work(s, c, Add(t, target)), c, Locking(Add(t, target), Done)))
  {
    var s' := SetPc(Work(s, c, Add(t, target)), c, Locking(Add(t, target), Done));
    assert At(s, t, Hand(c));
    forall p ensures At(s', t, p) <==> p == Queue(target) {
      assert At(s, t, p) ==> p == Hand(c);
    }
    assert s'.status.Keys == s.status.Keys + {t} by {
      assert Somewhere(s, t);
    }
    Move(s, s', t, Queue(target));
  }

  // ---------------------------------------------------------------- other steps and places

  predicate SameCpu(a: Cpu, b: Cpu) { a.current == b.current && a.queue == b.queue && InHand(a.pc) == InHand(b.pc) }

  lemma StayPut(s: Sys, s': Sys)
    requires Conserved(s) && Size(s') == Size(s) && s'.status.Keys == s.status.Keys
    requires forall c :: 0 <= c < Size(s) ==> SameCpu(s.cpus[c], s'.cpus[c])
    ensures Conserved(s')
  {
    forall t, p ensures At(s', t, p) <==> At(s, t, p) {
      assert p.cpu < Size(s) ==> SameCpu(s.cpus[p.cpu], s'.cpus[p.cpu]);
    }
    Stay(s, s');
  }

  /** `current = next`: the new thread leaves the CPU's hands, the old one enters them. */
  lemma SwitchSwaps(s: Sys, c: nat, next: Tid)
    requires Conserved(s) && c < Size(s) && s.cpus[c].pc == Switch(next)
    ensures Conserved(SetPc(SetCurrent(s, c, next), c, Decide(s.cpus[c].current, next)))
    ensures next != s.cpus[c].current
  {
    var prev := s.cpus[c].current;
    var s' := SetPc(SetCurrent(s, c, next), c, Decide(prev, next));
    assert At(s, next, Hand(c)) && At(s, prev, Current(c));
    forall p ensures (At(s', next, p) <==> p == Current(c)) && (At(s', prev, p) <==> p == Hand(c)) {
      assert (At(s, next, p) ==> p == Hand(c)) && (At(s, prev, p) ==> p == Current(c));
    }
    forall x, p | x != next && x != prev ensures At(s', x, p) <==> At(s, x, p) {}
    forall t, p, q | At(s', t, p) && At(s', t, q) ensures p == q {
      assert t != next && t != prev ==> At(s, t, p) && At(s, t, q);
    }
    forall t ensures Somewhere(s', t) <==> t in s'.status {
      assert Somewhere(s, t) <==> t in s.status;
      if t == next {
        assert At(s', t, Current(c));
      } else if t == prev {
        assert At(s', t, Hand(c));
      } else {
        Others(s, s', t);
      }
    }
  }

  lemma SpawnBorn(s: Sys, c: nat, t: Tid, target: nat)
    requires Conserved(s) && c < Size(s) && s.cpus[c].pc == Run && t !in s.status
    ensures Conserved(SetPc(SetStatus(s, t, Runnable), c, Locking(Add(t, target), Spin)))
  {
    var s' := SetPc(SetStatus(s, t, Runnable), c, Locking(Add(t, target), Spin));
    forall p ensures At(s', t, p) <==> p == Hand(c) {
      assert At(s, t, p) ==> Somewhere(s, t);
    }
    forall x, p | x != t ensures At(s', x, p) <==> At(s, x, p) {}
    Move(s, s', t, Hand(c));
  }

  lemma FreeDies(s: Sys, c: nat, prev: Tid)
    requires Conserved(s) && c < Size(s) && s.cpus[c].pc == Free(prev)
    ensures Conserved(SetPc(s.(status := s.status - {prev}), c, Run))
  {
    var s' := SetPc(s.(status := s.status - {prev}), c, Run);
    assert At(s, prev, Hand(c));
    forall p ensures !At(s', prev, p) {
      assert At(s, prev, p) ==> p == Hand(c);
    }
    forall x, p | x != prev ensures At(s', x, p) <==> At(s, x, p) {}
    forall t, p, q | At(s', t, p) && At(s', t, q) ensures p == q {
      assert t != prev ==> At(s, t, p) && At(s, t, q);
    }
    forall t ensures Somewhere(s', t) <==> t in s'.status {
      assert Somewhere(s, t) <==> t in s.status;
      if t != prev {
        Others(s, s', t);
      }
    }
  }

  // ---------------------------------------------------------------- locks

  /** Nobody enters or leaves a section, and no counter changes. */
  lemma LocksStay(s: Sys, s': Sys)
    requires Exclusive(s) && Size(s') == Size(s)
    requires forall c :: 0 <= c < Size(s) ==> s'.cpus[c].lock == s.cpus[c].lock
    requires forall c, l :: Inside(s', c, l) <==> Inside(s, c, l)
    ensures Exclusive(s')
  {
    forall l ensures LockOk(s', l) {
      assert LockOk(s, l);
      if Taken(s, l) {
        var c :| Inside(s, c, l);
        assert Inside(s', c, l);
      }
      if Taken(s', l) {
        var c :| Inside(s', c, l);
        assert Inside(s, c, l);
      }
    }
  }

  /** The successful `cmpxchg`. */
  lemma CasEnters(s: Sys, c: nat, g: Goal)
    requires Exclusive(s) && c < Size(s) && s.cpus[c].pc == Locking(g, Cas) && LockOf(g, c) < Size(s)
    requires s.cpus[LockOf(g, c)].lock == 0
    ensures Exclusive(SetPc(SetLock(s, LockOf(g, c), 1), c, Locking(g, Held)))
  {
    var l := LockOf(g, c);
    var s' := SetPc(SetLock(s, l, 1), c, Locking(g, Held));
    assert LockOk(s, l);
    assert !Taken(s, l);
    forall d, m ensures Inside(s', d, m) <==> Inside(s, d, m) || (d == c && m == l) {}
    forall m ensures LockOk(s', m) {
      assert LockOk(s, m);
      if m == l {
        assert Inside(s', c, m);
      } else {
        SameTaken(s, s', m);
      }
    }
  }

  lemma SameTaken(s: Sys, s': Sys, m: nat)
    requires forall d :: Inside(s', d, m) <==> Inside(s, d, m)
    ensures Taken(s', m) <==> Taken(s, m)
  {
    if Taken(s, m) {
      var d :| Inside(s, d, m);
      assert Inside(s', d, m);
    }
    if Taken(s', m) {
      var d :| Inside(s', d, m);
      assert Inside(s, d, m);
    }
  }

  /** The unlock. */
  lemma UnlockLeaves(s: Sys, c: nat, g: Goal)
    requires Exclusive(s) && c < Size(s) && s.cpus[c].pc == Locking(g, Done) && LockOf(g, c) < Size(s)
    ensures Exclusive(SetPc(SetLock(s, LockOf(g, c), 0), c, Onward(g)))
  {
    var l := LockOf(g, c);
    var s' := SetPc(SetLock(s, l, 0), c, Onward(g));
    assert Inside(s, c, l);
    forall d, m ensures Inside(s', d, m) <==> Inside(s, d, m) && d != c {}
    forall m ensures LockOk(s', m) {
      assert LockOk(s, m);
      if m == l {
        assert forall d :: !Inside(s', d, l);
      } else {
        SameTaken(s, s', m);
      }
    }
  }
}
