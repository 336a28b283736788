/** When a queued thread runs, counted in calls of `schedule` on its CPU. */
module SchedCalls {
  import opened Sched
  import opened SchedRuns
  import opened SchedFair

  /** Steps of CPU `c` in a run. */
  function Steps(es: seq<Event>, c: nat): nat {
    if es == [] then 0 else (if es[0].cpu == c then 1 else 0) + Steps(es[1..], c)
  }

  /** Steps that a CPU is away from running the thread it has taken. */
  function Away(s: Sys, c: nat, t: Tid): nat
    requires c < Size(s)
  {
    if s.cpus[c].pc == Locking(Take(t), Done) then 2 else if s.cpus[c].pc == Switch(t) then 1 else 0
  }

  /** A thread once taken is the current one two steps of its CPU later, whatever the others do. */
  lemma {:induction false} HandoverRun(s: Sys, es: seq<Event>, c: nat, t: Tid)
    requires c < Size(s) && (Away(s, c, t) == 0 ==> s.cpus[c].current == t)
    requires Steps(es, c) == Away(s, c, t)
    ensures var s' := After(s, es); c < Size(s') && s'.cpus[c].current == t
    decreases |es|
  {
    if es != [] {
      var s1 := Next(s, es[0].cpu, es[0].action);
      if es[0].cpu == c {
        Handover(s, c, c, es[0].action, t);
      } else {
        OtherPc(s, es[0].cpu, es[0].action, c);
      }
      HandoverRun(s1, es[1..], c, t);
    }
  }

  lemma {:induction false} AfterTail(s: Sys, es: seq<Event>, fs: seq<Event>)
    ensures After(s, es + fs) == After(After(s, es), fs)
    decreases |es|
  {
    if es == [] {
      assert es + fs == fs;
    } else {
      assert (es + fs)[1..] == es[1..] + fs;
      AfterTail(Next(s, es[0].cpu, es[0].action), es[1..], fs);
    }
  }

  /** Bounded waiting in calls: while `t` waits, its CPU makes no more calls of `schedule` than
      there were threads ahead of `t`, and one, and one for each thread that cut in. */
  lemma NoMoreCalls(s: Sys, es: seq<Event>, c: nat, t: Tid)
    requires Inv(s) && Waits(s, es, c, t) && !InCall(s, c)
    ensures Calls(s, es, c) <= Wait(s, c, t) + 1 + Cuts(s, es, c, t)
  {
    WaitOverRun(s, es, c, t);
    CallsAreTurns(s, es, c, t);
  }

  /** The call that has reached its CPU's queue at the end of `es` makes `t` the current thread,
      two steps of the CPU after it has taken a thread and whatever the others do meanwhile, if
      and only if it is call number `k + 1 +` the cuts, where `k` threads were ahead of `t`. */
  lemma Scheduled(s: Sys, es: seq<Event>, c: nat, t: Tid, a: Action, fs: seq<Event>)
    requires Inv(s) && Waits(s, es, c, t) && !InCall(s, c)
    requires IsTake(After(s, es), c, c) && Steps(fs, c) == 2
    ensures var s' := After(s, es + [Event(c, a)] + fs);
      && c < Size(s')
      && (s'.cpus[c].current == t <==> Calls(s, es, c) == Wait(s, c, t) + 1 + Cuts(s, es, c, t))
  {
    var s1 := After(s, es);
    var s2 := Next(s1, c, a);
    Turn(s, es, c, t, a);
    CallsAreTurns(s, es, c, t);
    HandoverRun(s2, fs, c, s1.cpus[c].pc.goal.next);
    AfterTail(s, es, [Event(c, a)]);
    AfterTail(s, es + [Event(c, a)], fs);
    assert [Event(c, a)][1..] == [];
    assert After(s, es + [Event(c, a)]) == s2;
  }

  // ---------------------------------------------------------------- a thread that comes too late

  /** CPU 1 creates `t` on CPU 0. */
  function Create(t: Tid): seq<Event> {
    [Event(1, Spawn(t, 0)), Event(1, Go), Event(1, Go), Event(1, Go), Event(1, Go)]
  }

  function Idle(q: seq<Tid>, pc: Pc, st: map<Tid, Status>): Sys {
    Sys([Cpu(0, q, 0, pc), Cpu(1, [], 0, Run)], st)
  }

  /** The steps of `Create` one at a time. */
  lemma CreateSteps(q: seq<Tid>, pc: Pc, st: map<Tid, Status>, t: Tid) returns (ss: seq<Sys>)
    requires t !in st
    ensures |ss| == 6 && ss[0] == Idle(q, pc, st) && ss[5] == Idle([t] + q, pc, st[t := Runnable])
    ensures forall i :: 0 <= i < 5 ==> ss[i + 1] == Next(ss[i], Create(t)[i].cpu, Create(t)[i].action)
    ensures forall i :: 0 <= i <= 5 ==> Size(ss[i]) == 2 && ss[i].cpus[0].pc == pc && (ss[i].cpus[0].queue == q || ss[i].cpus[0].queue == [t] + q)
  {
    var st' := st[t := Runnable];
    ss := [ Idle(q, pc, st),
            Sys([Cpu(0, q, 0, pc), Cpu(1, [], 0, Locking(Add(t, 0), Spin))], st'),
            Sys([Cpu(0, q, 0, pc), Cpu(1, [], 0, Locking(Add(t, 0), Cas))], st'),
            Sys([Cpu(0, q, 1, pc), Cpu(1, [], 0, Locking(Add(t, 0), Held))], st'),
            Sys([Cpu(0, [t] + q, 1, pc), Cpu(1, [], 0, Locking(Add(t, 0), Done))], st'),
            Idle([t] + q, pc, st') ];
    assert ss[1] == Next(ss[0], 1, Spawn(t, 0)) && ss[2] == Next(ss[1], 1, Go) && ss[3] == Next(ss[2], 1, Go);
    assert ss[4] == Next(ss[3], 1, Go) && ss[5] == Next(ss[4], 1, Go);
  }

  /** A run given state by state. */
  lemma {:induction false} AlongRun(ss: seq<Sys>, es: seq<Event>)
    requires |ss| == |es| + 1 && forall i :: 0 <= i < |es| ==> ss[i + 1] == Next(ss[i], es[i].cpu, es[i].action)
    ensures After(ss[0], es) == ss[|es|]
    decreases |es|
  {
    if es != [] {
      assert forall i :: 0 <= i < |es[1..]| ==> ss[1..][i + 1] == Next(ss[1..][i], es[1..][i].cpu, es[1..][i].action);
      AlongRun(ss[1..], es[1..]);
    }
  }

  /** While CPU 0 holds `t` as its pick, `t` waits and nothing cuts in. */
  lemma {:induction false} PickedAlong(ss: seq<Sys>, es: seq<Event>, t: Tid)
    requires |ss| == |es| + 1 && forall i :: 0 <= i < |es| ==> ss[i + 1] == Next(ss[i], es[i].cpu, es[i].action)
    requires forall i :: 0 <= i < |ss| ==> Size(ss[i]) == 2 && t in ss[i].cpus[0].queue && ss[i].cpus[0].pc == Locking(Take(t), Spin)
    ensures Waits(ss[0], es, 0, t) && Cuts(ss[0], es, 0, t) == 0
    decreases |es|
  {
    if es != [] {
      assert forall i :: 0 <= i < |es[1..]| ==> ss[1..][i + 1] == Next(ss[1..][i], es[1..][i].cpu, es[1..][i].action);
      PickedAlong(ss[1..], es[1..], t);
    }
  }

  /** CPU 0 calls `schedule` and picks the only thread on its queue. */
  lemma Picks(t: Tid, st: map<Tid, Status>)
    requires t != 0
    ensures After(Idle([t], Run, st), [Event(0, Yield), Event(0, Go), Event(0, Go)]) == Idle([t], Locking(Take(t), Spin), st)
  {
    var ss := [Idle([t], Run, st), Idle([t], Start, st), Idle([t], Peek, st), Idle([t], Locking(Take(t), Spin), st)];
    var es := [Event(0, Yield), Event(0, Go), Event(0, Go)];
    assert ss[1] == Next(ss[0], 0, Yield) && ss[2] == Next(ss[1], 0, Go) && ss[3] == Next(ss[2], 0, Go);
    AlongRun(ss, es);
  }

  /** A creation as a whole. */
  lemma Creates(q: seq<Tid>, pc: Pc, st: map<Tid, Status>, t: Tid)
    requires t !in st
    ensures After(Idle(q, pc, st), Create(t)) == Idle([t] + q, pc, st[t := Runnable])
  {
    var ss := CreateSteps(q, pc, st, t);
    AlongRun(ss, Create(t));
  }

  /** The same behind a pick. */
  lemma CreatesLate(q: seq<Tid>, st: map<Tid, Status>, t: Tid, picked: Tid)
    requires t !in st && picked in q
    ensures var s := Idle(q, Locking(Take(picked), Spin), st); Waits(s, Create(t), 0, picked) && Cuts(s, Create(t), 0, picked) == 0
  {
    var ss := CreateSteps(q, Locking(Take(picked), Spin), st, t);
    PickedAlong(ss, Create(t), picked);
  }

  /** From boot, CPU 1 creates thread 2 on CPU 0, which then picks it. */
  function Lead(): seq<Event> { Create(2) + [Event(0, Yield), Event(0, Go), Event(0, Go)] }

  lemma LeadsTo()
    ensures After(Boot(2), Lead()) == Idle([2], Locking(Take(2), Spin), map[0 := Running, 1 := Running, 2 := Runnable])
  {
    var st := map[0 := Running, 1 := Running];
    assert Boot(2) == Idle([], Run, st);
    Creates([], Run, st, 2);
    AfterTail(Boot(2), Create(2), [Event(0, Yield), Event(0, Go), Event(0, Go)]);
    assert [2] + [] == [2];
    Picks(2, st[2 := Runnable]);
  }

  /** A thread put ahead of one that its CPU has already picked does not cut in: thread 3 goes
      before thread 2 on the queue, and thread 2 is still the next to be taken. */
  lemma LateThread()
    ensures var s := After(Boot(2), Lead());
      && Inv(s) && Waits(s, Create(3), 0, 2) && Cuts(s, Create(3), 0, 2) == 0
      && var s' := After(s, Create(3)); Size(s') == 2 && s'.cpus[0].queue == [3, 2] && Wait(s', 0, 2) == 0
  {
    var st := map[0 := Running, 1 := Running, 2 := Runnable];
    LeadsTo();
    BootOk(2);
    AlwaysSafe(Boot(2), Lead());
    Creates([2], Locking(Take(2), Spin), st, 3);
    CreatesLate([2], st, 3, 2);
    assert [3] + [2] == [3, 2];
  }
}
