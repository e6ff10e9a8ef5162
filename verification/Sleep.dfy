/**
Sleep and wakeup (proc.c) with sleeplocks (sleeplock.c) as a state machine.  Every acquire and release
of ptable.lock and of a sleeplock's spinlock is a step of its own, so processes, schedulers and timer
preemption interleave freely between them.
*/
module SleepWakeup {
  import opened ProcTable

  /** Where a process is in the kernel.  Back is where it resumes, holding ptable.lock, after a switch. */
  datatype Pc =
    | Idle
    | Run
    | AcqWant(l: int) | AcqTest(l: int) | SleepWant(l: int) | SleepBoth(l: int) | SleepGo(l: int)
    | RelWant(l: int) | RelWake(l: int) | RelPt(l: int) | RelDone(l: int)
    | WaitWant | WaitScan
    | ExitWant | ExitGo
    | ForkNew(c: int) | ForkReady(c: int)
    | Back(why: Why)

  /** Why a process gave up its processor: to sleep on a lock, in wait, on something else, or preempted. */
  datatype Why = OnLock(l: int) | InWait | Elsewhere(n: int) | Preempted(at: Pc)

  datatype Holder = Nobody | Cpu | By(p: int)

  /** lk[l] is the process that holds lock l's spinlock, or -1; held says who has come out of acquiresleep(l). */
  datatype World = World(procs: seq<Proc>, pc: seq<Pc>, pt: Holder, lk: seq<int>, locked: seq<bool>, held: set<(int, int)>, init: int)

  datatype Step =
    | Enter | Switch(q: int) | Leave
    | CallAcq(l: int) | AcqLk | AcqTake | AcqBusy | SleepPt | SleepRel | SleepDo
    | CallRel(l: int) | RelLk | RelGetPt | RelWakeup | RelLeave
    | CallWait | WaitPt | WaitReap(c: int) | WaitNone | WaitSleep
    | CallExit | ExitPt | ExitDo
    | ForkAlloc(c: int, pid: int) | ForkFail | ForkParent | ForkGo
    | KillStep(c: int) | SleepOther(n: int) | WakeOther(n: int) | Yield | Resume

  /** The spinlock a process holds at a program point, or -1. */
  function LkOf(k: Pc): int {
    match k
    case AcqTest(l) => l
    case SleepWant(l) => l
    case SleepBoth(l) => l
    case RelWake(l) => l
    case RelPt(l) => l
    case RelDone(l) => l
    case _ => -1
  }

  predicate PtPc(k: Pc) {
    k.SleepBoth? || k.SleepGo? || k.RelPt? || k.WaitScan? || k.ExitGo? || k.Back?
  }

  /** Program points with interrupts on, where the timer may strike. */
  predicate Open(k: Pc) {
    k.Run? || k.AcqWant? || k.RelWant? || k.WaitWant? || k.ExitWant? || k.ForkNew? || k.ForkReady?
  }

  function Core(k: Pc): Pc {
    if k.Back? && k.why.Preempted? then k.why.at else k
  }

  function ChanOf(why: Why, p: int): Chan {
    match why
    case OnLock(l) => OfLock(l)
    case InWait => OfProc(p)
    case Elsewhere(n) => Other(n)
    case Preempted(_) => Nil
  }

  /** After the switch: where the process goes once it has tidied up. */
  function After(why: Why): Pc {
    match why
    case OnLock(l) => AcqWant(l)
    case InWait => WaitScan
    case Elsewhere(_) => Run
    case Preempted(k) => k
  }

  ghost predicate Shape(w: World) {
    && |w.pc| == |w.procs| && |w.lk| == |w.locked|
    && (w.pt.By? ==> 0 <= w.pt.p < |w.procs|)
    && 0 <= w.init < |w.procs|
  }

  ghost predicate Lock(w: World, l: int) {
    0 <= l < |w.lk| == |w.locked|
  }

  /** Process p is on a processor at program point k. */
  ghost predicate At(w: World, p: int, k: Pc) {
    0 <= p < |w.procs| == |w.pc| && w.procs[p].state == RUNNING && w.pc[p] == k
  }

  function Goes(w: World, p: int, k: Pc): World
    requires 0 <= p < |w.pc|
  {
    w.(pc := w.pc[p := k])
  }

  /** p gives up the processor, with ptable.lock, as st; it will come back for this reason. */
  function Switched(w: World, p: int, st: State, why: Why): World
    requires 0 <= p < |w.procs| == |w.pc|
  {
    w.(procs := w.procs[p := w.procs[p].(state := st, chan := if why.Preempted? then w.procs[p].chan else ChanOf(why, p))],
       pc := w.pc[p := Back(why)],
       pt := Cpu)
  }

  /** Steps of a scheduler. */
  ghost predicate CpuStep(w: World, s: Step, w': World) {
    match s
    case Enter => w.pt == Nobody && w' == w.(pt := Cpu)
    case Switch(q) =>
      && w.pt == Cpu && 0 <= q < |w.procs| && w.procs[q].state == RUNNABLE
      && w' == w.(procs := w.procs[q := w.procs[q].(state := RUNNING)], pt := By(q))
    case Leave => w.pt == Cpu && w' == w.(pt := Nobody)
    case _ => false
  }

  /** Steps of process p inside acquiresleep, with the sleep it may call. */
  ghost predicate AcqStep(w: World, p: int, s: Step, w': World) {
    && 0 <= p < |w.pc|
    && var k := w.pc[p];
       && At(w, p, k)
       && match s
          case CallAcq(l) => k == Run && Lock(w, l) && w' == Goes(w, p, AcqWant(l))
          case AcqLk =>
            k.AcqWant? && Lock(w, k.l) && w.lk[k.l] == -1 && w' == Goes(w, p, AcqTest(k.l)).(lk := w.lk[k.l := p])
          case AcqTake =>
            && k.AcqTest? && Lock(w, k.l) && !w.locked[k.l]
            && w' == Goes(w, p, Run).(lk := w.lk[k.l := -1], locked := w.locked[k.l := true], held := w.held + {(p, k.l)})
          case AcqBusy => k.AcqTest? && Lock(w, k.l) && w.locked[k.l] && w' == Goes(w, p, SleepWant(k.l))
          case SleepPt => k.SleepWant? && w.pt == Nobody && w' == Goes(w, p, SleepBoth(k.l)).(pt := By(p))
          case SleepRel => k.SleepBoth? && Lock(w, k.l) && w' == Goes(w, p, SleepGo(k.l)).(lk := w.lk[k.l := -1])
          case SleepDo => k.SleepGo? && w' == Switched(w, p, SLEEPING, OnLock(k.l))
          case _ => false
  }

  /** Steps of process p inside releasesleep. */
  ghost predicate RelStep(w: World, p: int, s: Step, w': World) {
    && 0 <= p < |w.pc|
    && var k := w.pc[p];
       && At(w, p, k)
       && match s
          case CallRel(l) => k == Run && Lock(w, l) && (p, l) in w.held && w' == Goes(w, p, RelWant(l))
          case RelLk =>
            && k.RelWant? && Lock(w, k.l) && w.lk[k.l] == -1
            && w' == Goes(w, p, RelWake(k.l)).(lk := w.lk[k.l := p], locked := w.locked[k.l := false], held := w.held - {(p, k.l)})
          case RelGetPt => k.RelWake? && w.pt == Nobody && w' == Goes(w, p, RelPt(k.l)).(pt := By(p))
          case RelWakeup =>
            k.RelPt? && w' == Goes(w, p, RelDone(k.l)).(procs := Woken(w.procs, OfLock(k.l)), pt := Nobody)
          case RelLeave => k.RelDone? && Lock(w, k.l) && w' == Goes(w, p, Run).(lk := w.lk[k.l := -1])
          case _ => false
  }

  /** Steps of process p inside wait. */
  ghost predicate WaitStep(w: World, p: int, s: Step, w': World) {
    && 0 <= p < |w.pc|
    && var k := w.pc[p];
       && At(w, p, k)
       && match s
          case CallWait => k == Run && w' == Goes(w, p, WaitWant)
          case WaitPt => k == WaitWant && w.pt == Nobody && w' == Goes(w, p, WaitScan).(pt := By(p))
          case WaitReap(c) =>
            && k == WaitScan && FirstZombie(w.procs, p, c)
            && w' == Goes(w, p, Run).(procs := w.procs[c := ReapedProc(w.procs[c])], pt := Nobody)
          case WaitNone =>
            && k == WaitScan && !ZombieChild(w.procs, p) && (!HasKids(w.procs, p) || w.procs[p].killed)
            && w' == Goes(w, p, Run).(pt := Nobody)
          case WaitSleep =>
            && k == WaitScan && !ZombieChild(w.procs, p) && HasKids(w.procs, p) && !w.procs[p].killed
            && w' == Switched(w, p, SLEEPING, InWait)
          case _ => false
  }

  /** Steps of process p inside exit, which it enters with no sleeplock in hand. */
  ghost predicate ExitStep(w: World, p: int, s: Step, w': World) {
    && 0 <= p < |w.pc|
    && var k := w.pc[p];
       && At(w, p, k)
       && match s
          case CallExit => k == Run && p != w.init && (forall l :: (p, l) !in w.held) && w' == Goes(w, p, ExitWant)
          case ExitPt => k == ExitWant && w.pt == Nobody && w' == Goes(w, p, ExitGo).(pt := By(p))
          case ExitDo => k == ExitGo && w' == Goes(w, p, Idle).(procs := Exited(w.procs, w.init, p), pt := Cpu)
          case _ => false
  }

  /** Steps of process p inside fork. */
  ghost predicate ForkStep(w: World, p: int, s: Step, w': World) {
    && 0 <= p < |w.pc|
    && var k := w.pc[p];
       && At(w, p, k)
       && match s
          case ForkAlloc(c, pid) =>
            && k == Run && w.pt == Nobody && 0 <= c < |w.procs| && w.procs[c].state == UNUSED
            && w' == Goes(w, p, ForkNew(c)).(procs := w.procs[c := w.procs[c].(state := EMBRYO, pid := pid)])
          case ForkFail =>
            && k.ForkNew? && 0 <= k.c < |w.procs|
            && w' == Goes(w, p, Run).(procs := w.procs[k.c := w.procs[k.c].(state := UNUSED)])
          case ForkParent =>
            && k.ForkNew? && 0 <= k.c < |w.procs|
            && w' == Goes(w, p, ForkReady(k.c)).(procs := w.procs[k.c := w.procs[k.c].(parent := p)])
          case ForkGo =>
            && k.ForkReady? && 0 <= k.c < |w.procs| && w.pt == Nobody
            && w' == w.(procs := w.procs[k.c := w.procs[k.c].(state := RUNNABLE)],
                        pc := w.pc[p := Run][k.c := Back(Preempted(Run))])
          case _ => false
  }

  /** Steps of process p inside kill and yield, in sleep and wakeup on other channels, and out of a switch. */
  ghost predicate MiscStep(w: World, p: int, s: Step, w': World) {
    && 0 <= p < |w.pc|
    && var k := w.pc[p];
       && At(w, p, k)
       && match s
          case KillStep(c) =>
            && k == Run && w.pt == Nobody && 0 <= c < |w.procs|
            && w' == w.(procs := w.procs[c := KilledProc(w.procs[c])])
          case SleepOther(n) => k == Run && w.pt == Nobody && w' == Switched(w, p, SLEEPING, Elsewhere(n))
          case WakeOther(n) => k == Run && w.pt == Nobody && w' == w.(procs := Woken(w.procs, Other(n)))
          case Yield => Open(k) && w.pt == Nobody && w' == Switched(w, p, RUNNABLE, Preempted(k))
          case Resume =>
            && k.Back?
            && w' == Goes(w, p, After(k.why)).(
                 procs := w.procs[p := w.procs[p].(chan := if k.why.Preempted? then w.procs[p].chan else Nil)],
                 pt := if k.why.InWait? then w.pt else Nobody)
          case _ => false
  }

  ghost predicate Next(w: World, p: int, s: Step, w': World) {
    || CpuStep(w, s, w') || AcqStep(w, p, s, w') || RelStep(w, p, s, w') || WaitStep(w, p, s, w')
    || ExitStep(w, p, s, w') || ForkStep(w, p, s, w') || MiscStep(w, p, s, w')
  }

  /** One process, init, ready for its first switch. */
  ghost predicate Init(w: World) {
    && Shape(w)
    && w.pt == Nobody && w.held == {}
    && (forall l :: 0 <= l < |w.lk| ==> w.lk[l] == -1 && !w.locked[l])
    && (forall p :: 0 <= p < |w.procs| ==> w.procs[p].parent == -1)
    && (forall p :: 0 <= p < |w.procs| ==>
          if p == w.init then w.procs[p].state == RUNNABLE && w.pc[p] == Back(Preempted(Run))
          else w.procs[p].state == UNUSED && w.pc[p] == Idle)
  }

  // ----- what every state satisfies -----

  predicate Live(st: State) {
    st == SLEEPING || st == RUNNABLE || st == RUNNING
  }

  /** Process p agrees with the locks about what it holds. */
  ghost predicate LocksOk(w: World, p: int)
    requires Shape(w) && 0 <= p < |w.procs|
  {
    var k, st := w.pc[p], w.procs[p].state;
    && (k == Idle <==> !Live(st))
    && (st == SLEEPING || st == RUNNABLE ==> k.Back?)
    && (w.pt == By(p) <==> st == RUNNING && PtPc(k))
    && (LkOf(k) != -1 ==> Lock(w, LkOf(k)) && w.lk[LkOf(k)] == p)
    && (k.Back? && k.why.Preempted? ==> Open(k.why.at))
    && (Core(k).RelWant? ==> (p, Core(k).l) in w.held)
    && (Core(k).ExitWant? || k.ExitGo? ==> p != w.init)
  }

  /** The holder of lock l's spinlock is about to wake the sleepers. */
  ghost predicate Waking(w: World, l: int)
    requires Shape(w) && Lock(w, l)
  {
    0 <= w.lk[l] < |w.pc| && (w.pc[w.lk[l]] == RelWake(l) || w.pc[w.lk[l]] == RelPt(l))
  }

  /** A sleeper on a lock, or one about to be, will be woken. */
  ghost predicate SleepOk(w: World, p: int)
    requires Shape(w) && 0 <= p < |w.procs|
  {
    var k, st := w.pc[p], w.procs[p].state;
    && (k.SleepWant? || k.SleepBoth? ==> Lock(w, k.l) && w.locked[k.l])
    && (k.SleepGo? ==> Lock(w, k.l) && (w.locked[k.l] || Waking(w, k.l)))
    && (st == SLEEPING ==> k.Back? && !k.why.Preempted? && w.procs[p].chan == ChanOf(k.why, p))
    && (st == SLEEPING && k.Back? && k.why.OnLock? ==> Lock(w, k.why.l) && (w.locked[k.why.l] || Waking(w, k.why.l)))
  }

  ghost predicate InWaitAsleep(w: World, p: int)
    requires Shape(w) && 0 <= p < |w.procs|
  {
    w.procs[p].state == SLEEPING && w.pc[p] == Back(InWait)
  }

  /** The family tree around process c, and the child that c is making. */
  ghost predicate FamilyOk(w: World, c: int)
    requires Shape(w) && 0 <= c < |w.procs|
  {
    var q := w.procs[c].parent;
    && -1 <= q < |w.procs| && q != c
    && (w.procs[c].state == UNUSED ==> q == -1)
    && (q >= 0 ==> Live(w.procs[q].state))
    && (q >= 0 && w.procs[c].state == ZOMBIE ==> !InWaitAsleep(w, q))
    && var k := Core(w.pc[c]);
       && (k.ForkNew? ==> 0 <= k.c < |w.procs| && w.procs[k.c].state == EMBRYO && w.procs[k.c].parent == -1)
       && (k.ForkReady? ==> 0 <= k.c < |w.procs| && w.procs[k.c].state == EMBRYO && w.procs[k.c].parent == c)
  }

  predicate Making(k: Pc, c: int) {
    (Core(k).ForkNew? || Core(k).ForkReady?) && Core(k).c == c
  }

  ghost predicate OneMaker(w: World)
  {
    forall p, q, c {:trigger Making(w.pc[p], c), Making(w.pc[q], c)} ::
      0 <= p < |w.pc| && 0 <= q < |w.pc| && Making(w.pc[p], c) && Making(w.pc[q], c) ==> p == q
  }

  /** A sleeplock is held by at most one process, and only while it is marked locked. */
  ghost predicate HeldOk(w: World)
    requires Shape(w)
  {
    && (forall a, b :: a in w.held && b in w.held && a.1 == b.1 ==> a == b)
    && (forall a :: a in w.held ==> Lock(w, a.1) && w.locked[a.1])
  }

  ghost predicate HasHolder(w: World, l: int) {
    exists p :: (p, l) in w.held
  }

  ghost predicate LockedHeld(w: World)
    requires Shape(w)
  {
    forall l :: 0 <= l < |w.locked| && w.locked[l] ==> HasHolder(w, l)
  }

  ghost predicate LkOk(w: World)
    requires Shape(w)
  {
    forall l :: 0 <= l < |w.lk| && w.lk[l] != -1 ==> 0 <= w.lk[l] < |w.pc| && LkOf(w.pc[w.lk[l]]) == l
  }

  ghost predicate InitOk(w: World)
    requires Shape(w)
  {
    Live(w.procs[w.init].state) && w.procs[w.init].parent == -1
  }

  ghost predicate Inv(w: World) {
    && Shape(w) && InitOk(w)
    && (forall p {:trigger LocksOk(w, p)} :: 0 <= p < |w.procs| ==> LocksOk(w, p))
    && (forall p {:trigger SleepOk(w, p)} :: 0 <= p < |w.procs| ==> SleepOk(w, p))
    && (forall p {:trigger FamilyOk(w, p)} :: 0 <= p < |w.procs| ==> FamilyOk(w, p))
    && OneMaker(w) && HeldOk(w) && LockedHeld(w) && LkOk(w)
  }

  lemma InitInv(w: World)
    requires Init(w)
    ensures Inv(w)
  {
  }

  // ----- every step keeps the invariant -----

  lemma CpuProc(w: World, s: Step, w': World, q: int)
    requires Inv(w) && CpuStep(w, s, w') && 0 <= q < |w.procs|
    ensures Shape(w') && |w'.procs| == |w.procs| && LocksOk(w', q) && SleepOk(w', q) && FamilyOk(w', q)
  {
    hide OneMaker, LockedHeld, HeldOk;
    assert s.Switch? ==> LocksOk(w, s.q) && SleepOk(w, s.q) && FamilyOk(w, s.q);
    assert LocksOk(w, q) && SleepOk(w, q) && FamilyOk(w, q);
  }

  lemma CpuWorld(w: World, s: Step, w': World)
    requires Inv(w) && CpuStep(w, s, w')
    ensures Shape(w') && |w'.procs| == |w.procs| && OneMaker(w') && InitOk(w') && HeldOk(w') && LockedHeld(w') && LkOk(w')
  {
    hide SleepOk;
    assert s.Switch? ==> LocksOk(w, s.q) && FamilyOk(w, s.q);
  }

  lemma AcqLocks(w: World, p: int, s: Step, w': World, q: int)
    requires Inv(w) && AcqStep(w, p, s, w') && 0 <= q < |w.procs|
    ensures Shape(w') && |w'.procs| == |w.procs| && LocksOk(w', q)
  {
    hide OneMaker, LockedHeld, SleepOk, FamilyOk;
    assert LocksOk(w, p);
    assert LocksOk(w, q);
  }

  /** A sleeper keeps its hope of a wakeup while its lock stays locked or its waker stays at work. */
  lemma SleepFrame(w: World, w': World, q: int)
    requires Shape(w) && Shape(w') && 0 <= q < |w.procs| == |w'.procs| && |w'.lk| == |w.lk| && SleepOk(w, q)
    requires w'.procs[q] == w.procs[q] && w'.pc[q] == w.pc[q]
    requires forall l :: Lock(w, l) && (w.locked[l] || Waking(w, l)) ==> w'.locked[l] || Waking(w', l)
    requires forall l :: Lock(w, l) && w.locked[l] && w.lk[l] == q ==> w'.locked[l]
    requires (w.pc[q].SleepWant? || w.pc[q].SleepBoth?) && Lock(w, w.pc[q].l) ==> w.lk[w.pc[q].l] == q
    ensures SleepOk(w', q)
  {
    hide Waking;
  }

  lemma AcqAlert(w: World, p: int, s: Step, w': World, l: int)
    requires Inv(w) && AcqStep(w, p, s, w') && Lock(w, l)
    ensures Shape(w') && |w'.procs| == |w.procs| && |w'.lk| == |w.lk|
    ensures w.locked[l] ==> w'.locked[l]
    ensures w.locked[l] || Waking(w, l) ==> w'.locked[l] || Waking(w', l)
  {
    hide OneMaker, LockedHeld, HeldOk, FamilyOk, SleepOk, Core, Open, ChanOf;
    assert LocksOk(w, p);
  }

  lemma AcqSleep(w: World, p: int, s: Step, w': World, q: int)
    requires Inv(w) && AcqStep(w, p, s, w') && 0 <= q < |w.procs|
    ensures Shape(w') && |w'.procs| == |w.procs| && SleepOk(w', q)
  {
    hide OneMaker, LockedHeld, HeldOk, FamilyOk, LkOk, Open, Core, Waking;
    assert LocksOk(w, p) && SleepOk(w, p);
    assert LocksOk(w, q) && SleepOk(w, q);
    forall l | Lock(w, l)
      ensures w.locked[l] ==> w'.locked[l]
      ensures w.locked[l] || Waking(w, l) ==> w'.locked[l] || Waking(w', l)
    {
      AcqAlert(w, p, s, w', l);
    }
    if q != p {
      SleepFrame(w, w', q);
    }
  }

  lemma AcqFamily(w: World, p: int, s: Step, w': World, q: int)
    requires Inv(w) && AcqStep(w, p, s, w') && 0 <= q < |w.procs|
    ensures Shape(w') && |w'.procs| == |w.procs| && FamilyOk(w', q)
  {
    hide OneMaker, LockedHeld, HeldOk, LkOk, SleepOk;
    assert LocksOk(w, p) && FamilyOk(w, p);
    assert LocksOk(w, q) && FamilyOk(w, q);
  }

  lemma AcqHolders(w: World, p: int, s: Step, w': World)
    requires Inv(w) && AcqStep(w, p, s, w')
    ensures Shape(w') && LockedHeld(w')
  {
    hide LocksOk, SleepOk, FamilyOk, HeldOk, LkOk, OneMaker, HasHolder;
    forall l | 0 <= l < |w'.locked| && w'.locked[l]
      ensures HasHolder(w', l)
    {
      if !w.locked[l] {
        HolderIs(w', p, l);
      } else {
        HolderStays(w, w', l);
      }
    }
  }

  lemma HolderIs(w: World, p: int, l: int)
    requires (p, l) in w.held
    ensures HasHolder(w, l)
  {
  }

  lemma HolderStays(w: World, w': World, l: int)
    requires HasHolder(w, l) && w.held <= w'.held
    ensures HasHolder(w', l)
  {
    var p :| (p, l) in w.held;
    assert (p, l) in w'.held;
  }

  lemma AcqWorld(w: World, p: int, s: Step, w': World)
    requires Inv(w) && AcqStep(w, p, s, w')
    ensures Shape(w') && |w'.procs| == |w.procs| && OneMaker(w') && InitOk(w') && HeldOk(w') && LockedHeld(w') && LkOk(w')
  {
    hide SleepOk, FamilyOk, PtPc, Open, ChanOf, LockedHeld;
    assert LocksOk(w, p);
    AcqHolders(w, p, s, w');
  }

  lemma RelLocks(w: World, p: int, s: Step, w': World, q: int)
    requires Inv(w) && RelStep(w, p, s, w') && 0 <= q < |w.procs|
    ensures Shape(w') && |w'.procs| == |w.procs| && LocksOk(w', q)
  {
    hide OneMaker, LockedHeld, SleepOk, FamilyOk;
    assert LocksOk(w, p);
    assert LocksOk(w, q);
  }

  lemma RelSleep(w: World, p: int, s: Step, w': World, q: int)
    requires Inv(w) && RelStep(w, p, s, w') && 0 <= q < |w.procs|
    ensures Shape(w') && |w'.procs| == |w.procs| && SleepOk(w', q)
  {
    hide OneMaker, LockedHeld, HeldOk, FamilyOk;
    assert LocksOk(w, p) && SleepOk(w, p);
    assert LocksOk(w, q) && SleepOk(w, q);
  }

  lemma RelFamily(w: World, p: int, s: Step, w': World, q: int)
    requires Inv(w) && RelStep(w, p, s, w') && 0 <= q < |w.procs|
    ensures Shape(w') && |w'.procs| == |w.procs| && FamilyOk(w', q)
  {
    hide OneMaker, LockedHeld, HeldOk, LkOk, SleepOk, PtPc, Open, ChanOf;
    assert LocksOk(w, p) && FamilyOk(w, p);
    assert LocksOk(w, q) && FamilyOk(w, q);
  }

  lemma RelWorld(w: World, p: int, s: Step, w': World)
    requires Inv(w) && RelStep(w, p, s, w')
    ensures Shape(w') && |w'.procs| == |w.procs| && OneMaker(w') && InitOk(w') && HeldOk(w') && LockedHeld(w') && LkOk(w')
  {
    hide SleepOk;
    assert LocksOk(w, p) && FamilyOk(w, p);
  }

  lemma WaitLocks(w: World, p: int, s: Step, w': World, q: int)
    requires Inv(w) && WaitStep(w, p, s, w') && 0 <= q < |w.procs|
    ensures Shape(w') && |w'.procs| == |w.procs| && LocksOk(w', q)
  {
    hide OneMaker, LockedHeld, SleepOk, FamilyOk;
    assert LocksOk(w, p);
    assert LocksOk(w, q);
  }

  lemma WaitSleep(w: World, p: int, s: Step, w': World, q: int)
    requires Inv(w) && WaitStep(w, p, s, w') && 0 <= q < |w.procs|
    ensures Shape(w') && |w'.procs| == |w.procs| && SleepOk(w', q)
  {
    hide OneMaker, LockedHeld, HeldOk, FamilyOk;
    assert LocksOk(w, p) && SleepOk(w, p);
    assert LocksOk(w, q) && SleepOk(w, q);
  }

  lemma WaitFamily(w: World, p: int, s: Step, w': World, q: int)
    requires Inv(w) && WaitStep(w, p, s, w') && 0 <= q < |w.procs|
    ensures Shape(w') && |w'.procs| == |w.procs| && FamilyOk(w', q)
  {
    hide OneMaker, LockedHeld, HeldOk, LkOk, SleepOk;
    assert LocksOk(w, p) && FamilyOk(w, p);
    assert LocksOk(w, q) && FamilyOk(w, q);
  }

  lemma WaitWorld(w: World, p: int, s: Step, w': World)
    requires Inv(w) && WaitStep(w, p, s, w')
    ensures Shape(w') && |w'.procs| == |w.procs| && OneMaker(w') && InitOk(w') && HeldOk(w') && LockedHeld(w') && LkOk(w')
  {
    hide SleepOk;
    assert LocksOk(w, p) && FamilyOk(w, p);
  }

  lemma ExitLocks(w: World, p: int, s: Step, w': World, q: int)
    requires Inv(w) && ExitStep(w, p, s, w') && 0 <= q < |w.procs|
    ensures Shape(w') && |w'.procs| == |w.procs| && LocksOk(w', q)
  {
    hide OneMaker, LockedHeld, SleepOk, FamilyOk;
    assert LocksOk(w, p);
    assert LocksOk(w, q);
  }

  lemma ExitSleep(w: World, p: int, s: Step, w': World, q: int)
    requires Inv(w) && ExitStep(w, p, s, w') && 0 <= q < |w.procs|
    ensures Shape(w') && |w'.procs| == |w.procs| && SleepOk(w', q)
  {
    hide OneMaker, LockedHeld, HeldOk, FamilyOk;
    assert LocksOk(w, p) && SleepOk(w, p);
    assert LocksOk(w, q) && SleepOk(w, q);
  }

  lemma ExitParent(w: World, p: int, w': World, q: int)
    requires Inv(w) && ExitStep(w, p, ExitDo, w') && 0 <= q < |w.procs|
    ensures -1 <= w'.procs[q].parent < |w.procs|
    ensures Shape(w') && var r := w'.procs[q].parent; r >= 0 ==> Live(w'.procs[r].state) && (w'.procs[q].state == ZOMBIE ==> !InWaitAsleep(w', r))
  {
    hide OneMaker, LockedHeld, HeldOk, LkOk;
    assert LocksOk(w, p) && FamilyOk(w, q);
    assert w'.procs[q] == ExitedProc(w.procs, w.init, p, q);
    var r := w'.procs[q].parent;
    if r >= 0 {
      assert SleepOk(w, r);
      assert w'.procs[r] == ExitedProc(w.procs, w.init, p, r);
    }
  }

  lemma ExitFamily(w: World, p: int, s: Step, w': World, q: int)
    requires Inv(w) && ExitStep(w, p, s, w') && 0 <= q < |w.procs|
    ensures Shape(w') && |w'.procs| == |w.procs| && FamilyOk(w', q)
  {
    hide OneMaker, LockedHeld, HeldOk, LkOk;
    assert LocksOk(w, p) && FamilyOk(w, p) && LocksOk(w, q) && FamilyOk(w, q);
    if s.ExitDo? {
      ExitParent(w, p, w', q);
    }
  }

  lemma ExitWorld(w: World, p: int, s: Step, w': World)
    requires Inv(w) && ExitStep(w, p, s, w')
    ensures Shape(w') && |w'.procs| == |w.procs| && OneMaker(w') && InitOk(w') && HeldOk(w') && LockedHeld(w') && LkOk(w')
  {
    hide SleepOk;
    assert LocksOk(w, p) && FamilyOk(w, p);
  }

  lemma ForkLocks(w: World, p: int, s: Step, w': World, q: int)
    requires Inv(w) && ForkStep(w, p, s, w') && 0 <= q < |w.procs|
    ensures Shape(w') && |w'.procs| == |w.procs| && LocksOk(w', q)
  {
    hide OneMaker, LockedHeld, SleepOk;
    assert LocksOk(w, p) && FamilyOk(w, p);
    assert w.pc[p].ForkReady? ==> LocksOk(w, w.pc[p].c);
    assert LocksOk(w, q) && FamilyOk(w, q);
  }

  /** The child under construction is not running yet. */
  lemma ForkChild(w: World, p: int)
    requires Inv(w) && 0 <= p < |w.pc| && (w.pc[p].ForkNew? || w.pc[p].ForkReady?)
    ensures 0 <= w.pc[p].c < |w.pc| && w.pc[w.pc[p].c] == Idle && w.procs[w.pc[p].c].state == EMBRYO
  {
    hide OneMaker, LockedHeld, HeldOk, SleepOk, LkOk;
    assert FamilyOk(w, p);
    assert LocksOk(w, w.pc[p].c);
  }

  lemma ForkAlert(w: World, p: int, s: Step, w': World, l: int)
    requires Inv(w) && ForkStep(w, p, s, w') && Lock(w, l)
    ensures Shape(w') && |w'.procs| == |w.procs| && w'.lk == w.lk && w'.locked == w.locked
    ensures Waking(w, l) ==> Waking(w', l)
  {
    hide OneMaker, LockedHeld, HeldOk, SleepOk, FamilyOk, Open, ChanOf, PtPc;
    assert LocksOk(w, p);
    if s.ForkGo? {
      ForkChild(w, p);
    }
  }

  lemma ForkSleep(w: World, p: int, s: Step, w': World, q: int)
    requires Inv(w) && ForkStep(w, p, s, w') && 0 <= q < |w.procs|
    ensures Shape(w') && |w'.procs| == |w.procs| && SleepOk(w', q)
  {
    hide OneMaker, LockedHeld, HeldOk, FamilyOk, LkOk, Open, PtPc, Waking;
    assert SleepOk(w, p) && LocksOk(w, q) && SleepOk(w, q);
    if !s.ForkAlloc? {
      ForkChild(w, p);
    }
    forall l | Lock(w, l)
      ensures w.locked[l] ==> w'.locked[l]
      ensures w.locked[l] || Waking(w, l) ==> w'.locked[l] || Waking(w', l)
    {
      ForkAlert(w, p, s, w', l);
    }
    if w'.procs[q] == w.procs[q] && w'.pc[q] == w.pc[q] {
      SleepFrame(w, w', q);
    }
  }

  lemma ForkFamily(w: World, p: int, s: Step, w': World, q: int)
    requires Inv(w) && ForkStep(w, p, s, w') && 0 <= q < |w.procs|
    ensures Shape(w') && |w'.procs| == |w.procs| && FamilyOk(w', q)
  {
    hide LockedHeld, HeldOk, LkOk, SleepOk, PtPc, ChanOf, Open;
    assert LocksOk(w, p) && FamilyOk(w, p) && LocksOk(w, q) && FamilyOk(w, q);
    assert s.ForkAlloc? ==> FamilyOk(w, s.c);
    if w.pc[p].ForkNew? || w.pc[p].ForkReady? {
      var c := w.pc[p].c;
      assert LocksOk(w, c) && FamilyOk(w, c);
      assert Making(w.pc[p], c);
      assert Making(w.pc[q], c) ==> p == q;
    }
  }

  lemma ForkWorld(w: World, p: int, s: Step, w': World)
    requires Inv(w) && ForkStep(w, p, s, w')
    ensures Shape(w') && |w'.procs| == |w.procs| && OneMaker(w') && InitOk(w') && HeldOk(w') && LockedHeld(w') && LkOk(w')
  {
    hide SleepOk;
    assert LocksOk(w, p) && FamilyOk(w, p);
    assert w.pc[p].ForkReady? ==> LocksOk(w, w.pc[p].c);
    forall a, c | 0 <= a < |w.pc| && Making(w'.pc[a], c)
      ensures Making(w.pc[a], c) || (s.ForkAlloc? && a == p && c == s.c)
    {
    }
    forall a | 0 <= a < |w.pc| && s.ForkAlloc?
      ensures !Making(w.pc[a], s.c)
    {
      assert FamilyOk(w, a);
    }
  }

  lemma MiscLocks(w: World, p: int, s: Step, w': World, q: int)
    requires Inv(w) && MiscStep(w, p, s, w') && 0 <= q < |w.procs|
    ensures Shape(w') && |w'.procs| == |w.procs| && LocksOk(w', q)
  {
    hide OneMaker, LockedHeld, SleepOk, FamilyOk;
    assert LocksOk(w, p);
    assert LocksOk(w, q);
  }

  lemma MiscSleep(w: World, p: int, s: Step, w': World, q: int)
    requires Inv(w) && MiscStep(w, p, s, w') && 0 <= q < |w.procs|
    ensures Shape(w') && |w'.procs| == |w.procs| && SleepOk(w', q)
  {
    hide OneMaker, LockedHeld, HeldOk, FamilyOk;
    assert LocksOk(w, p) && SleepOk(w, p);
    assert LocksOk(w, q) && SleepOk(w, q);
  }

  lemma MiscFamily(w: World, p: int, s: Step, w': World, q: int)
    requires Inv(w) && MiscStep(w, p, s, w') && 0 <= q < |w.procs|
    ensures Shape(w') && |w'.procs| == |w.procs| && FamilyOk(w', q)
  {
    hide OneMaker, LockedHeld, HeldOk, LkOk, SleepOk, PtPc, ChanOf;
    assert LocksOk(w, p) && FamilyOk(w, p);
    assert LocksOk(w, q) && FamilyOk(w, q);
  }

  lemma MiscWorld(w: World, p: int, s: Step, w': World)
    requires Inv(w) && MiscStep(w, p, s, w')
    ensures Shape(w') && |w'.procs| == |w.procs| && OneMaker(w') && InitOk(w') && HeldOk(w') && LockedHeld(w') && LkOk(w')
  {
    hide SleepOk;
    assert LocksOk(w, p) && FamilyOk(w, p);
    forall a, c | 0 <= a < |w.pc| && Making(w'.pc[a], c)
      ensures Making(w.pc[a], c)
    {
    }
  }

  lemma NextInv(w: World, p: int, s: Step, w': World)
    requires Inv(w) && Next(w, p, s, w')
    ensures Inv(w')
  {
    hide LocksOk, SleepOk, FamilyOk, OneMaker, HeldOk, LockedHeld, LkOk, InitOk;
    hide CpuStep, AcqStep, RelStep, WaitStep, ExitStep, ForkStep, MiscStep, Shape;
    NextWorld(w, p, s, w');
    forall q | 0 <= q < |w'.procs|
      ensures LocksOk(w', q) && SleepOk(w', q) && FamilyOk(w', q)
    {
      NextProc(w, p, s, w', q);
    }
  }

  lemma NextWorld(w: World, p: int, s: Step, w': World)
    requires Inv(w) && Next(w, p, s, w')
    ensures Shape(w') && |w'.procs| == |w.procs| && OneMaker(w') && InitOk(w') && HeldOk(w') && LockedHeld(w') && LkOk(w')
  {
    hide LocksOk, SleepOk, FamilyOk, OneMaker, HeldOk, LockedHeld, LkOk, InitOk;
    hide CpuStep, AcqStep, RelStep, WaitStep, ExitStep, ForkStep, MiscStep;
    if CpuStep(w, s, w') {
      CpuWorld(w, s, w');
    } else if AcqStep(w, p, s, w') {
      AcqWorld(w, p, s, w');
    } else if RelStep(w, p, s, w') {
      RelWorld(w, p, s, w');
    } else if WaitStep(w, p, s, w') {
      WaitWorld(w, p, s, w');
    } else if ExitStep(w, p, s, w') {
      ExitWorld(w, p, s, w');
    } else if ForkStep(w, p, s, w') {
      ForkWorld(w, p, s, w');
    } else {
      MiscWorld(w, p, s, w');
    }
  }

  lemma NextProc(w: World, p: int, s: Step, w': World, q: int)
    requires Inv(w) && Next(w, p, s, w') && 0 <= q < |w.procs|
    ensures Shape(w') && |w'.procs| == |w.procs| && LocksOk(w', q) && SleepOk(w', q) && FamilyOk(w', q)
  {
    hide LocksOk, SleepOk, FamilyOk, OneMaker, HeldOk, LockedHeld, LkOk, InitOk;
    hide CpuStep, AcqStep, RelStep, WaitStep, ExitStep, ForkStep, MiscStep;
    if CpuStep(w, s, w') {
      CpuProc(w, s, w', q);
    } else if AcqStep(w, p, s, w') {
      AcqLocks(w, p, s, w', q);
      AcqSleep(w, p, s, w', q);
      AcqFamily(w, p, s, w', q);
    } else if RelStep(w, p, s, w') {
      RelLocks(w, p, s, w', q);
      RelSleep(w, p, s, w', q);
      RelFamily(w, p, s, w', q);
    } else if WaitStep(w, p, s, w') {
      WaitLocks(w, p, s, w', q);
      WaitSleep(w, p, s, w', q);
      WaitFamily(w, p, s, w', q);
    } else if ExitStep(w, p, s, w') {
      ExitLocks(w, p, s, w', q);
      ExitSleep(w, p, s, w', q);
      ExitFamily(w, p, s, w', q);
    } else if ForkStep(w, p, s, w') {
      ForkLocks(w, p, s, w', q);
      ForkSleep(w, p, s, w', q);
      ForkFamily(w, p, s, w', q);
    } else {
      MiscLocks(w, p, s, w', q);
      MiscSleep(w, p, s, w', q);
      MiscFamily(w, p, s, w', q);
    }
  }

  // ----- whole runs -----

  ghost predicate Steps(w: World, w': World) {
    exists p, s :: Next(w, p, s, w')
  }

  ghost predicate Behavior(b: seq<World>) {
    && b != [] && Init(b[0])
    && forall i :: 0 <= i < |b| - 1 ==> Steps(b[i], b[i + 1])
  }

  /** A process asleep on a sleeplock whose spinlock is free: some process holds the sleeplock and will release it. */
  ghost predicate NoLostWakeup(w: World)
    requires Shape(w)
  {
    forall p, l :: 0 <= p < |w.procs| && w.procs[p].state == SLEEPING && w.procs[p].chan == OfLock(l) ==>
      Lock(w, l) && (w.lk[l] == -1 ==> w.locked[l] && HasHolder(w, l))
  }

  /** Only p itself sleeps on process p, and while it does none of its children is a zombie. */
  ghost predicate NoUnreapedZombie(w: World) {
    forall p, q :: 0 <= p < |w.procs| && w.procs[p].state == SLEEPING && w.procs[p].chan == OfProc(q) ==>
      p == q && !ZombieChild(w.procs, p)
  }

  ghost predicate ParentsAlive(w: World) {
    forall c :: 0 <= c < |w.procs| && w.procs[c].parent != -1 ==>
      0 <= w.procs[c].parent < |w.procs|
      && w.procs[w.procs[c].parent].state != UNUSED && w.procs[w.procs[c].parent].state != ZOMBIE
  }

  /** At most one process is between acquiresleep and releasesleep of a lock. */
  ghost predicate Exclusive(w: World) {
    forall p, q, l :: (p, l) in w.held && (q, l) in w.held ==> p == q
  }

  lemma InvSafe(w: World)
    requires Inv(w)
    ensures Shape(w) && NoLostWakeup(w) && NoUnreapedZombie(w) && ParentsAlive(w) && Exclusive(w)
  {
    forall p, l | 0 <= p < |w.procs| && w.procs[p].state == SLEEPING && w.procs[p].chan == OfLock(l)
      ensures Lock(w, l) && (w.lk[l] == -1 ==> w.locked[l] && HasHolder(w, l))
    {
      assert SleepOk(w, p);
    }
    forall p, q | 0 <= p < |w.procs| && w.procs[p].state == SLEEPING && w.procs[p].chan == OfProc(q)
      ensures p == q && !ZombieChild(w.procs, p)
    {
      assert SleepOk(w, p);
      forall c | 0 <= c < |w.procs| && w.procs[c].parent == p
        ensures w.procs[c].state != ZOMBIE
      {
        assert FamilyOk(w, c);
      }
    }
    forall c | 0 <= c < |w.procs| && w.procs[c].parent != -1
      ensures 0 <= w.procs[c].parent < |w.procs| && Live(w.procs[w.procs[c].parent].state)
    {
      assert FamilyOk(w, c);
    }
    forall p, q, l | (p, l) in w.held && (q, l) in w.held
      ensures p == q
    {
      assert (p, l) == (q, l);
    }
  }

  lemma {:induction false} RunInv(b: seq<World>, i: nat)
    requires Behavior(b) && i < |b|
    ensures Inv(b[i])
  {
    if i == 0 {
      InitInv(b[0]);
    } else {
      RunInv(b, i - 1);
      assert Steps(b[i - 1], b[i - 1 + 1]);
      var p, s :| Next(b[i - 1], p, s, b[i]);
      NextInv(b[i - 1], p, s, b[i]);
    }
  }

  /** In every state of every run: no wakeup is lost, no zombie unseen by a waiting parent, no parent dead, no lock shared. */
  lemma SleepWakeupTheorem(b: seq<World>, i: nat)
    requires Behavior(b) && i < |b|
    ensures Shape(b[i]) && NoLostWakeup(b[i]) && NoUnreapedZombie(b[i]) && ParentsAlive(b[i]) && Exclusive(b[i])
  {
    hide Inv, Behavior, NoLostWakeup, NoUnreapedZombie, ParentsAlive, Exclusive;
    RunInv(b, i);
    InvSafe(b[i]);
  }
}
