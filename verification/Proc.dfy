/** The process table (proc.c): the scans that run under ptable.lock, as loops over the table. */
module ProcTable {
  import opened Params

  datatype State = UNUSED | EMBRYO | SLEEPING | RUNNABLE | RUNNING | ZOMBIE

  /** What a process may sleep on: a process (in wait), a sleeplock, or anything else. */
  datatype Chan = Nil | OfProc(p: int) | OfLock(l: int) | Other(n: int)

  /** parent is a slot of the table, or -1. */
  datatype Proc = Proc(state: State, pid: int, parent: int, chan: Chan, killed: bool)

  predicate Wakes(p: Proc, ch: Chan) {
    p.state == SLEEPING && p.chan == ch
  }

  function Wake(p: Proc, ch: Chan): (q: Proc)
    ensures q == p.(state := q.state) && (q.state != p.state <==> p.state == SLEEPING && p.chan == ch)
    ensures q.state == p.state || q.state == RUNNABLE
  {
    if Wakes(p, ch) then p.(state := RUNNABLE) else p
  }

  ghost function Woken(procs: seq<Proc>, ch: Chan): (r: seq<Proc>) {
    seq(|procs|, i requires 0 <= i < |procs| => Wake(procs[i], ch))
  }

  ghost predicate ZombieChild(procs: seq<Proc>, cur: int) {
    exists c :: 0 <= c < |procs| && procs[c].parent == cur && procs[c].state == ZOMBIE
  }

  function ParentChan(parent: int): Chan {
    if parent < 0 then Nil else OfProc(parent)
  }

  /** What exit leaves in a slot: its children are init's, whoever waits for them or for cur is awake, cur is a zombie. */
  ghost function ExitedProc(procs: seq<Proc>, init: int, cur: int, i: int): Proc
    requires 0 <= cur < |procs| && 0 <= i < |procs|
  {
    var p := procs[i];
    var wakes := Wakes(p, ParentChan(procs[cur].parent)) || (ZombieChild(procs, cur) && Wakes(p, OfProc(init)));
    p.(state := if i == cur then ZOMBIE else if wakes then RUNNABLE else p.state,
       parent := if p.parent == cur then init else p.parent)
  }

  ghost function Exited(procs: seq<Proc>, init: int, cur: int): (r: seq<Proc>)
    requires 0 <= cur < |procs|
  {
    seq(|procs|, i requires 0 <= i < |procs| => ExitedProc(procs, init, cur, i))
  }

  /** The slot that wait reaps. */
  ghost predicate FirstZombie(procs: seq<Proc>, cur: int, c: int) {
    && 0 <= c < |procs| && procs[c].parent == cur && procs[c].state == ZOMBIE
    && forall i :: 0 <= i < c ==> !(procs[i].parent == cur && procs[i].state == ZOMBIE)
  }

  ghost predicate HasKids(procs: seq<Proc>, cur: int) {
    exists c :: 0 <= c < |procs| && procs[c].parent == cur
  }

  function ReapedProc(p: Proc): (q: Proc)
    ensures q.state == UNUSED && q.pid == 0 && q.parent == -1 && !q.killed && q.chan == p.chan
  {
    Proc(UNUSED, 0, -1, p.chan, false)
  }

  function KilledProc(p: Proc): (q: Proc)
    ensures q.killed && q.pid == p.pid && q.parent == p.parent && q.chan == p.chan
    ensures q.state == if p.state == SLEEPING then RUNNABLE else p.state
  {
    p.(killed := true, state := if p.state == SLEEPING then RUNNABLE else p.state)
  }

  datatype WaitResult = Pid(pid: int) | Minus1 | Sleep

  class Ptable {
    const proc: array<Proc>
    const init: int
    var nextpid: int

    /** The table as the kernel starts it: every slot unused, pid 1 next. */
    constructor (n: nat, init: int)
      ensures proc.Length == n && this.init == init && nextpid == 1 && fresh(proc)
      ensures forall i :: 0 <= i < n ==> proc[i] == Proc(UNUSED, 0, -1, Nil, false)
    {
      proc := new Proc[n](_ => Proc(UNUSED, 0, -1, Nil, false));
      this.init := init;
      nextpid := 1;
    }

    /** wakeup1 */
    method Wakeup1(ch: Chan)
      modifies proc
      ensures forall i :: 0 <= i < proc.Length ==>
        proc[i] == old(proc[i]).(state := if old(proc[i]).state == SLEEPING && old(proc[i]).chan == ch then RUNNABLE
                                          else old(proc[i]).state)
    {
      var p := 0;
      while p < proc.Length
        invariant 0 <= p <= proc.Length
        invariant forall i :: 0 <= i < p ==>
          proc[i] == old(proc[i]).(state := if Wakes(old(proc[i]), ch) then RUNNABLE else old(proc[i]).state)
        invariant forall i :: p <= i < proc.Length ==> proc[i] == old(proc[i])
      {
        if proc[p].state == SLEEPING && proc[p].chan == ch {
          proc[p] := proc[p].(state := RUNNABLE);
        }
        p := p + 1;
      }
    }

    /** exit, from acquiring ptable.lock to sched; ok is false where it panics. */
    method Exit(cur: int) returns (ok: bool)
      requires 0 <= cur < proc.Length
      modifies proc
      ensures ok <==> cur != init
      ensures !ok ==> proc[..] == old(proc[..])
      // the children of cur are init's, cur is a zombie, and who slept in wait for either is awake
      ensures ok ==> forall i :: 0 <= i < proc.Length ==>
        var p, q, up := old(proc[..])[i], proc[i], old(proc[..])[cur].parent;
        && q.pid == p.pid && q.chan == p.chan && q.killed == p.killed
        && q.parent == (if p.parent == cur then init else p.parent)
        && (i == cur ==> q.state == ZOMBIE)
        && (i != cur && p.state != SLEEPING ==> q.state == p.state)
        && (i != cur && p.state == SLEEPING ==>
              q.state == if p.chan == (if up < 0 then Nil else OfProc(up))
                            || (p.chan == OfProc(init)
                                && exists c :: 0 <= c < proc.Length && old(proc[c]).parent == cur && old(proc[c]).state == ZOMBIE)
                         then RUNNABLE else SLEEPING)
      ensures ok ==> proc[..] == Exited(old(proc[..]), init, cur)
    {
      if cur == init {
        return false;
      }
      ghost var was := proc[..];
      ghost var up := ParentChan(proc[cur].parent);
      Wakeup1(ParentChan(proc[cur].parent));
      var p := 0;
      ghost var zombie := false;
      while p < proc.Length
        invariant 0 <= p <= proc.Length && |was| == proc.Length
        invariant zombie <==> exists c :: 0 <= c < p && was[c].parent == cur && was[c].state == ZOMBIE
        invariant forall i :: 0 <= i < proc.Length ==>
          proc[i] == was[i].(state := if Wakes(was[i], up) || (zombie && Wakes(was[i], OfProc(init))) then RUNNABLE else was[i].state,
                             parent := if i < p && was[i].parent == cur then init else was[i].parent)
      {
        if proc[p].parent == cur {
          proc[p] := proc[p].(parent := init);
          if proc[p].state == ZOMBIE {
            Wakeup1(OfProc(init));
            zombie := true;
          }
        }
        p := p + 1;
      }
      proc[cur] := proc[cur].(state := ZOMBIE);
      assert zombie <==> ZombieChild(was, cur);
      assert zombie <==> exists c :: 0 <= c < proc.Length && old(proc[c]).parent == cur && old(proc[c]).state == ZOMBIE;
      return true;
    }

    /** One scan of wait: reap the first zombie child, give up, or go to sleep. */
    method WaitScan(cur: int) returns (r: WaitResult)
      requires 0 <= cur < proc.Length
      modifies proc
      ensures r.Pid? <==> exists c :: 0 <= c < proc.Length && old(proc[c]).parent == cur && old(proc[c]).state == ZOMBIE
      // the first zombie child is gone, and its slot is free
      ensures r.Pid? ==> exists c ::
        && 0 <= c < proc.Length
        && old(proc[..])[c].parent == cur && old(proc[..])[c].state == ZOMBIE && r.pid == old(proc[..])[c].pid
        && (forall i :: 0 <= i < c ==> old(proc[..])[i].parent != cur || old(proc[..])[i].state != ZOMBIE)
        && proc[..] == old(proc[..])[c := Proc(UNUSED, 0, -1, old(proc[..])[c].chan, false)]
      ensures !r.Pid? ==> proc[..] == old(proc[..])
      // and so it is a step of the process machine
      ensures r.Pid? <==> ZombieChild(old(proc[..]), cur)
      ensures r.Sleep? <==>
        && !r.Pid? && !old(proc[cur]).killed
        && exists c :: 0 <= c < proc.Length && old(proc[c]).parent == cur
    {
      ghost var was := proc[..];
      var havekids, p := false, 0;
      while p < proc.Length
        invariant 0 <= p <= proc.Length && proc[..] == was
        invariant havekids <==> exists c :: 0 <= c < p && was[c].parent == cur
        invariant forall c :: 0 <= c < p ==> !(was[c].parent == cur && was[c].state == ZOMBIE)
      {
        if proc[p].parent == cur {
          havekids := true;
          if proc[p].state == ZOMBIE {
            var pid := proc[p].pid;
            proc[p] := Proc(UNUSED, 0, -1, proc[p].chan, false);
            assert was[p].parent == cur && was[p].state == ZOMBIE;
            return Pid(pid);
          }
        }
        p := p + 1;
      }
      if !havekids || proc[cur].killed {
        return Minus1;
      }
      return Sleep;
    }

    /** The locked part of allocproc: the first unused slot becomes an embryo with a new pid. */
    method AllocProc() returns (r: Option<int>)
      modifies this`nextpid, proc
      ensures r.None? ==> proc[..] == old(proc[..]) && nextpid == old(nextpid)
      ensures r.None? <==> forall i :: 0 <= i < proc.Length ==> old(proc[i]).state != UNUSED
      ensures r.Some? ==>
        && 0 <= r.value < proc.Length && old(proc[..])[r.value].state == UNUSED
        && (forall i :: 0 <= i < r.value ==> old(proc[i]).state != UNUSED)
        && proc[..] == old(proc[..])[r.value := old(proc[..])[r.value].(state := EMBRYO, pid := old(nextpid))]
        && nextpid == old(nextpid) + 1
    {
      var p := 0;
      while p < proc.Length
        invariant 0 <= p <= proc.Length && proc[..] == old(proc[..]) && nextpid == old(nextpid)
        invariant forall i :: 0 <= i < p ==> old(proc[i]).state != UNUSED
      {
        if proc[p].state == UNUSED {
          proc[p] := proc[p].(state := EMBRYO, pid := nextpid);
          nextpid := nextpid + 1;
          return Some(p);
        }
        p := p + 1;
      }
      return None;
    }

    /** kill: the first slot with this pid is marked, and woken if it sleeps. */
    method Kill(pid: int) returns (ok: bool)
      modifies proc
      ensures ok <==> exists i :: 0 <= i < proc.Length && old(proc[i]).pid == pid
      ensures !ok ==> proc[..] == old(proc[..])
      ensures ok ==> exists c :: 0 <= c < proc.Length && old(proc[..])[c].pid == pid
                                 && (forall i :: 0 <= i < c ==> old(proc[..])[i].pid != pid)
                                 && (forall i :: 0 <= i < proc.Length && i != c ==> proc[i] == old(proc[..])[i])
                                 && proc[c].killed && proc[c].state != SLEEPING
                                 && (old(proc[..])[c].state == SLEEPING ==> proc[c].state == RUNNABLE)
                                 && (old(proc[..])[c].state != SLEEPING ==> proc[c].state == old(proc[..])[c].state)
                                 && proc[c].pid == pid && proc[c].parent == old(proc[..])[c].parent
                                 && proc[c].chan == old(proc[..])[c].chan
    {
      var p := 0;
      while p < proc.Length
        invariant 0 <= p <= proc.Length && proc[..] == old(proc[..])
        invariant forall i :: 0 <= i < p ==> old(proc[i]).pid != pid
      {
        if proc[p].pid == pid {
          proc[p] := proc[p].(killed := true);
          if proc[p].state == SLEEPING {
            proc[p] := proc[p].(state := RUNNABLE);
          }
          return true;
        }
        p := p + 1;
      }
      return false;
    }
  }
}
