/**
What the sleep and wakeup machine can do: runs that put a process to sleep and get it going again.  Each is
given for every state in which its first step can be taken.
*/
module SleepProgress {
  import opened ProcTable
  import opened SleepWakeup

  /** Worlds that follow one another. */
  ghost predicate Path(b: seq<World>) {
    b != [] && forall i :: 0 <= i < |b| - 1 ==> Steps(b[i], b[i + 1])
  }

  ghost predicate Leads(w: World, w': World) {
    exists b :: Path(b) && b[0] == w && b[|b| - 1] == w'
  }

  lemma Stay(w: World)
    ensures Leads(w, w)
  {
    assert Path([w]);
  }

  lemma Then(w: World, u: World, p: int, s: Step, v: World)
    requires Leads(w, u) && Next(u, p, s, v)
    ensures Leads(w, v)
  {
    hide Next;
    var b :| Path(b) && b[0] == w && b[|b| - 1] == u;
    var c := b + [v];
    assert Steps(u, v);
    forall i | 0 <= i < |c| - 1
      ensures Steps(c[i], c[i + 1])
    {
      if i < |b| - 1 {
        assert Steps(b[i], b[i + 1]);
      }
    }
    assert Path(c) && c[|c| - 1] == v;
  }

  lemma Onward(u: World, v: World, w: World)
    requires Leads(u, v) && Leads(v, w)
    ensures Leads(u, w)
  {
    var a :| Path(a) && a[0] == u && a[|a| - 1] == v;
    var b :| Path(b) && b[0] == v && b[|b| - 1] == w;
    var c := a + b[1..];
    forall i | 0 <= i < |c| - 1
      ensures Steps(c[i], c[i + 1])
    {
      if i < |a| - 1 {
        assert Steps(a[i], a[i + 1]);
      } else {
        assert Steps(b[i - |a| + 1], b[i - |a| + 2]);
      }
    }
    assert Path(c) && c[0] == u && c[|c| - 1] == w;
  }

  // ----- sleeplocks -----

  /** Process p may walk into acquiresleep(l): nobody is in the way. */
  ghost predicate Free(w: World, p: int, l: int) {
    At(w, p, Run) && Lock(w, l) && w.lk[l] == -1 && w.pt == Nobody
  }

  /** An unlocked sleeplock is taken. */
  lemma Takes(w: World, p: int, l: int)
    requires Free(w, p, l) && !w.locked[l]
    ensures Leads(w, w.(locked := w.locked[l := true], held := w.held + {(p, l)}))
  {
    hide Leads;
    var a := Goes(w, p, AcqWant(l));
    var b := Goes(a, p, AcqTest(l)).(lk := w.lk[l := p]);
    var c := Goes(b, p, Run).(lk := b.lk[l := -1], locked := w.locked[l := true], held := w.held + {(p, l)});
    Stay(w);
    Then(w, w, p, CallAcq(l), a);
    Then(w, a, p, AcqLk, b);
    Then(w, b, p, AcqTake, c);
    assert c.pc == w.pc && c.lk == w.lk;
  }

  /** A locked one puts the process to sleep on the lock, with both spinlocks given up. */
  lemma FallsAsleep(w: World, p: int, l: int)
    requires Free(w, p, l) && w.locked[l]
    ensures Leads(w, w.(procs := w.procs[p := w.procs[p].(state := SLEEPING, chan := OfLock(l))], pc := w.pc[p := Back(OnLock(l))]))
  {
    hide Leads;
    var a := Goes(w, p, AcqWant(l));
    var b := Goes(a, p, AcqTest(l)).(lk := w.lk[l := p]);
    var c := Goes(b, p, SleepWant(l));
    var d := Goes(c, p, SleepBoth(l)).(pt := By(p));
    var e := Goes(d, p, SleepGo(l)).(lk := d.lk[l := -1]);
    var f := Switched(e, p, SLEEPING, OnLock(l));
    Stay(w);
    Then(w, w, p, CallAcq(l), a);
    Then(w, a, p, AcqLk, b);
    Then(w, b, p, AcqBusy, c);
    Then(w, c, p, SleepPt, d);
    Then(w, d, p, SleepRel, e);
    Then(w, e, p, SleepDo, f);
    Then(w, f, p, Leave, f.(pt := Nobody));
    assert e.lk == w.lk && f.pc == w.pc[p := Back(OnLock(l))];
  }

  /** A holder releases the lock and everyone asleep on it is awake. */
  lemma Releases(w: World, p: int, l: int)
    requires Free(w, p, l) && (p, l) in w.held
    ensures Leads(w, w.(procs := Woken(w.procs, OfLock(l)), locked := w.locked[l := false], held := w.held - {(p, l)}))
  {
    hide Leads;
    var a := Goes(w, p, RelWant(l));
    var b := Goes(a, p, RelWake(l)).(lk := w.lk[l := p], locked := w.locked[l := false], held := w.held - {(p, l)});
    var c := Goes(b, p, RelPt(l)).(pt := By(p));
    var d := Goes(c, p, RelDone(l)).(procs := Woken(w.procs, OfLock(l)), pt := Nobody);
    var e := Goes(d, p, Run).(lk := d.lk[l := -1]);
    Stay(w);
    Then(w, w, p, CallRel(l), a);
    Then(w, a, p, RelLk, b);
    Then(w, b, p, RelGetPt, c);
    Then(w, c, p, RelWakeup, d);
    Then(w, d, p, RelLeave, e);
    assert e.pc == w.pc && e.lk == w.lk;
  }

  /** Who has been woken gets a processor and takes the lock. */
  lemma WokenTakes(w: World, q: int, l: int)
    requires 0 <= q < |w.procs| == |w.pc| && w.procs[q].state == RUNNABLE && w.pc[q] == Back(OnLock(l))
    requires w.pt == Nobody && Lock(w, l) && w.lk[l] == -1 && !w.locked[l]
    ensures Leads(w, w.(procs := w.procs[q := w.procs[q].(state := RUNNING, chan := Nil)], pc := w.pc[q := Run],
                        locked := w.locked[l := true], held := w.held + {(q, l)}))
  {
    hide Leads;
    var a := w.(pt := Cpu);
    var b := a.(procs := w.procs[q := w.procs[q].(state := RUNNING)], pt := By(q));
    var c := Goes(b, q, AcqWant(l)).(procs := b.procs[q := b.procs[q].(chan := Nil)], pt := Nobody);
    var d := Goes(c, q, AcqTest(l)).(lk := c.lk[l := q]);
    var e := Goes(d, q, Run).(lk := d.lk[l := -1], locked := d.locked[l := true], held := d.held + {(q, l)});
    Stay(w);
    Then(w, w, q, Enter, a);
    Then(w, a, q, Switch(q), b);
    Then(w, b, q, Resume, c);
    Then(w, c, q, AcqLk, d);
    Then(w, d, q, AcqTake, e);
    assert e.lk == w.lk && e.pc == w.pc[q := Run];
    assert e.procs == w.procs[q := w.procs[q].(state := RUNNING, chan := Nil)];
  }

  /** From every reachable state, a lock can pass from its holder to any process asleep on it. */
  lemma Handover(w: World, p: int, q: int, l: int) returns (w': World)
    requires Inv(w) && Free(w, p, l) && (p, l) in w.held
    requires 0 <= q < |w.procs| && w.procs[q].state == SLEEPING && w.procs[q].chan == OfLock(l)
    ensures Leads(w, w') && At(w', q, Run) && w'.held == w.held - {(p, l)} + {(q, l)} && w'.locked == w.locked && w'.lk == w.lk
  {
    hide Leads;
    SleeperBack(w, q);
    Releases(w, p, l);
    var u := w.(procs := Woken(w.procs, OfLock(l)), locked := w.locked[l := false], held := w.held - {(p, l)});
    WokenTakes(u, q, l);
    w' := u.(procs := u.procs[q := u.procs[q].(state := RUNNING, chan := Nil)], pc := u.pc[q := Run],
             locked := u.locked[l := true], held := u.held + {(q, l)});
    Onward(w, u, w');
    HeldLocked(w, p, l);
    assert w'.locked == w.locked;
  }

  lemma SleeperBack(w: World, q: int)
    requires Inv(w) && 0 <= q < |w.procs| && w.procs[q].state == SLEEPING
    ensures |w.pc| == |w.procs| && w.pc[q].Back? && w.procs[q].chan == ChanOf(w.pc[q].why, q) && !w.pc[q].why.Preempted?
  {
    assert SleepOk(w, q);
  }

  lemma HeldLocked(w: World, p: int, l: int)
    requires Inv(w) && (p, l) in w.held
    ensures Lock(w, l) && w.locked[l]
  {
  }

  // ----- wait, exit and kill -----

  /** wait goes to sleep exactly with children, none of them a zombie, and not killed; it returns otherwise. */
  lemma WaitDecides(w: World, p: int, s: Step, w': World)
    requires Shape(w) && At(w, p, WaitScan) && WaitStep(w, p, s, w')
    ensures 0 <= p < |w'.procs| == |w.procs|
    ensures w'.procs[p].state == SLEEPING <==>
      && !w.procs[p].killed
      && (exists c :: 0 <= c < |w.procs| && w.procs[c].parent == p)
      && (forall c :: 0 <= c < |w.procs| && w.procs[c].parent == p ==> w.procs[c].state != ZOMBIE)
    ensures w'.procs[p].state != SLEEPING ==> w'.pt == Nobody && w'.pc == w.pc[p := Run]
  {
  }

  /** A process with children and no zombie among them can fall asleep in wait. */
  lemma WaitsAsleep(w: World, p: int, c: int)
    requires At(w, p, Run) && w.pt == Nobody && !w.procs[p].killed && 0 <= c < |w.procs| && w.procs[c].parent == p
    requires forall c :: 0 <= c < |w.procs| && w.procs[c].parent == p ==> w.procs[c].state != ZOMBIE
    ensures Leads(w, w.(procs := w.procs[p := w.procs[p].(state := SLEEPING, chan := OfProc(p))], pc := w.pc[p := Back(InWait)]))
  {
    hide Leads;
    var a := Goes(w, p, WaitWant);
    var b := Goes(a, p, WaitScan).(pt := By(p));
    var d := Switched(b, p, SLEEPING, InWait);
    Stay(w);
    Then(w, w, p, CallWait, a);
    Then(w, a, p, WaitPt, b);
    assert HasKids(w.procs, p);
    Then(w, b, p, WaitSleep, d);
    Then(w, d, p, Leave, d.(pt := Nobody));
    assert d.pc == w.pc[p := Back(InWait)];
  }

  /** exit leaves a zombie and hands the processor to the scheduler. */
  lemma Exits(w: World, c: int)
    requires At(w, c, Run) && c != w.init && (forall l :: (c, l) !in w.held) && w.pt == Nobody
    ensures Leads(w, Goes(w, c, Idle).(procs := Exited(w.procs, w.init, c), pt := Cpu))
  {
    hide Leads, Exited;
    var a := Goes(w, c, ExitWant);
    var b := Goes(a, c, ExitGo).(pt := By(c));
    var d := Goes(b, c, Idle).(procs := Exited(w.procs, w.init, c), pt := Cpu);
    Stay(w);
    Then(w, w, c, CallExit, a);
    Then(w, a, c, ExitPt, b);
    Then(w, b, c, ExitDo, d);
    assert d.pc == w.pc[c := Idle];
  }

  /** A process woken in wait reaps its first zombie child. */
  lemma WokenReaps(w: World, p: int, z: int)
    requires 0 <= p < |w.procs| == |w.pc| && w.procs[p].state == RUNNABLE && w.pc[p] == Back(InWait) && w.pt == Cpu
    requires FirstZombie(w.procs, p, z)
    ensures Leads(w, Goes(w, p, Run).(procs := w.procs[p := w.procs[p].(state := RUNNING, chan := Nil)][z := ReapedProc(w.procs[z])],
                                      pt := Nobody))
  {
    hide Leads, FirstZombie;
    var a := w.(procs := w.procs[p := w.procs[p].(state := RUNNING)], pt := By(p));
    var b := Goes(a, p, WaitScan).(procs := a.procs[p := a.procs[p].(chan := Nil)]);
    SameZombies(w.procs, b.procs, p, z);
    var c := Goes(b, p, Run).(procs := b.procs[z := ReapedProc(b.procs[z])], pt := Nobody);
    Stay(w);
    Then(w, w, p, Switch(p), a);
    Then(w, a, p, Resume, b);
    Then(w, b, p, WaitReap(z), c);
    assert b.procs == w.procs[p := w.procs[p].(state := RUNNING, chan := Nil)] && c.pc == w.pc[p := Run];
  }

  /** From every reachable state, a child's exit wakes its waiting parent, which reaps a child. */
  lemma ExitIsReaped(w: World, p: int, c: int) returns (w': World, z: int)
    requires Inv(w) && At(w, c, Run) && c != w.init && (forall l :: (c, l) !in w.held) && w.pt == Nobody
    requires 0 <= p < |w.procs| && w.procs[c].parent == p && w.procs[p].state == SLEEPING && w.procs[p].chan == OfProc(p)
    ensures Leads(w, w') && At(w', p, Run) && w'.pt == Nobody
    ensures 0 <= z < |w.procs| == |w'.procs| && w'.procs[z].state == UNUSED
    ensures FirstZombie(Exited(w.procs, w.init, c), p, z)
  {
    hide Leads, Exited, FirstZombie;
    SleeperBack(w, p);
    ExitSlots(w, p, c);
    Exits(w, c);
    var u := Goes(w, c, Idle).(procs := Exited(w.procs, w.init, c), pt := Cpu);
    z := First(u.procs, p, c);
    ZombieSlot(u.procs, p, z);
    WokenReaps(u, p, z);
    w' := Goes(u, p, Run).(procs := u.procs[p := u.procs[p].(state := RUNNING, chan := Nil)][z := ReapedProc(u.procs[z])],
                           pt := Nobody);
    Onward(w, u, w');
  }

  lemma ZombieSlot(procs: seq<Proc>, p: int, z: int)
    requires FirstZombie(procs, p, z)
    ensures 0 <= z < |procs| && procs[z].parent == p && procs[z].state == ZOMBIE
  {
  }

  lemma ExitSlots(w: World, p: int, c: int)
    requires Shape(w) && 0 <= c < |w.procs| && 0 <= p < |w.procs| && p != c
    requires w.procs[c].parent == p && w.procs[p].state == SLEEPING && w.procs[p].chan == OfProc(p)
    ensures var ps := Exited(w.procs, w.init, c);
            && |ps| == |w.procs| && ps[p].state == RUNNABLE && ps[p].chan == OfProc(p)
            && ps[c].state == ZOMBIE && ps[c].parent == p
  {
  }

  lemma First(procs: seq<Proc>, p: int, c: int) returns (z: int)
    requires 0 <= c < |procs| && procs[c].parent == p && procs[c].state == ZOMBIE
    ensures FirstZombie(procs, p, z)
  {
    z := 0;
    while !(procs[z].parent == p && procs[z].state == ZOMBIE)
      invariant 0 <= z <= c && forall i :: 0 <= i < z ==> !(procs[i].parent == p && procs[i].state == ZOMBIE)
      decreases c - z
    {
      z := z + 1;
    }
  }

  /** A running parent is not its own zombie. */
  lemma SameZombies(a: seq<Proc>, b: seq<Proc>, p: int, z: int)
    requires FirstZombie(a, p, z) && 0 <= p < |a| && a[p].state == RUNNABLE
    requires b == a[p := a[p].(state := RUNNING)][p := a[p].(state := RUNNING).(chan := Nil)]
    ensures FirstZombie(b, p, z) && z != p && b[z] == a[z]
  {
  }

  /** From every reachable state, killing a process that sleeps in wait makes its wait return. */
  lemma KilledWaiterReturns(w: World, p: int, c: int) returns (w': World)
    requires Inv(w) && At(w, p, Run) && w.pt == Nobody
    requires 0 <= c < |w.procs| && w.procs[c].state == SLEEPING && w.procs[c].chan == OfProc(c)
    ensures Leads(w, w') && At(w', c, Run) && w'.procs[c].killed && w'.pt == Nobody
    ensures w'.procs == w.procs[c := w.procs[c].(state := RUNNING, chan := Nil, killed := true)]
  {
    hide Leads;
    SleeperBack(w, c);
    InvSafe(w);
    var a := w.(procs := w.procs[c := KilledProc(w.procs[c])]);
    var b := a.(pt := Cpu);
    var d := b.(procs := b.procs[c := b.procs[c].(state := RUNNING)], pt := By(c));
    var e := Goes(d, c, WaitScan).(procs := d.procs[c := d.procs[c].(chan := Nil)]);
    w' := Goes(e, c, Run).(pt := Nobody);
    Stay(w);
    Then(w, w, p, KillStep(c), a);
    Then(w, a, c, Enter, b);
    Then(w, b, c, Switch(c), d);
    Then(w, d, c, Resume, e);
    assert !ZombieChild(w.procs, c);
    NoZombie(w.procs, e.procs, c);
    Then(w, e, c, WaitNone, w');
    assert e.procs == w.procs[c := w.procs[c].(state := RUNNING, chan := Nil, killed := true)];
  }

  lemma NoZombie(a: seq<Proc>, b: seq<Proc>, c: int)
    requires !ZombieChild(a, c) && 0 <= c < |a| && |a| == |b| && b[c].state != ZOMBIE
    requires forall i :: 0 <= i < |a| && i != c ==> b[i] == a[i]
    ensures !ZombieChild(b, c)
  {
  }

  /** fork leaves a runnable child of p in the free slot c. */
  lemma Forks(w: World, p: int, c: int, pid: int)
    requires At(w, p, Run) && w.pt == Nobody && 0 <= c < |w.procs| && w.procs[c].state == UNUSED
    ensures Leads(w, w.(procs := w.procs[c := w.procs[c].(state := RUNNABLE, pid := pid, parent := p)],
                        pc := w.pc[c := Back(Preempted(Run))]))
  {
    hide Leads;
    var a := Goes(w, p, ForkNew(c)).(procs := w.procs[c := w.procs[c].(state := EMBRYO, pid := pid)]);
    var b := Goes(a, p, ForkReady(c)).(procs := a.procs[c := a.procs[c].(parent := p)]);
    var d := b.(procs := b.procs[c := b.procs[c].(state := RUNNABLE)], pc := b.pc[p := Run][c := Back(Preempted(Run))]);
    Stay(w);
    Then(w, w, p, ForkAlloc(c, pid), a);
    Then(w, a, p, ForkParent, b);
    Then(w, b, p, ForkGo, d);
    assert d.pc == w.pc[c := Back(Preempted(Run))];
    assert d.procs == w.procs[c := w.procs[c].(state := RUNNABLE, pid := pid, parent := p)];
  }

  /** The timer takes the processor away and a scheduler gives it back, with nothing else changed. */
  lemma YieldsAndResumes(w: World, p: int)
    requires Shape(w) && 0 <= p < |w.procs| && At(w, p, w.pc[p]) && SleepWakeup.Open(w.pc[p]) && w.pt == Nobody
    ensures Leads(w, Switched(w, p, RUNNABLE, Preempted(w.pc[p]))) && Leads(Switched(w, p, RUNNABLE, Preempted(w.pc[p])), w)
  {
    hide Leads;
    var a := Switched(w, p, RUNNABLE, Preempted(w.pc[p]));
    var b := a.(procs := a.procs[p := a.procs[p].(state := RUNNING)], pt := By(p));
    Stay(w);
    Stay(a);
    Then(w, w, p, Yield, a);
    Then(a, a, p, Switch(p), b);
    assert b.procs == w.procs && b.procs[p := b.procs[p].(chan := b.procs[p].chan)] == w.procs;
    assert Goes(b, p, w.pc[p]).pc == w.pc;
    Then(a, b, p, Resume, w);
  }
}
