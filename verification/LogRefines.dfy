/**
The log object and the machine: every call of a method of log.c takes the object from one state of
GroupCommit's machine to the next, and a whole group of calls leaves on disk what the operations wrote.
*/
module LogRefines {
  import opened Params
  import opened LogDisk
  import opened GroupCommit
  import opened LogFile

  /** The object shows state s of the machine, between two calls. */
  ghost predicate Shows(log: Log, s: State)
    reads log, log.block
  {
    && log.Valid() && LogEmpty(log.l, log.disk) && !log.committing
    && s.phase == Running
    && s.disk == log.disk && s.dirty == log.dirty && s.lh == log.Lh() && |s.active| == log.outstanding
  }

  /** begin_op is one step; the caller is admitted exactly when the machine admits the operation. */
  method BeginStep(log: Log, ghost s: State, ghost op: nat) returns (admitted: bool, ghost t: State)
    requires Shows(log, s) && Enabled(log.l, s, BeginOp(op))
    modifies log`outstanding
    ensures t == Next(log.l, s, BeginOp(op)) && Shows(log, t)
    ensures if admitted then t.active == s.active + [Op(op, {}, None)] else t == s
    ensures admitted <==> |s.lh| + (|s.active| + 1) * MAXOPBLOCKS <= LOGSIZE
  {
    admitted := log.BeginOp();
    t := Next(log.l, s, BeginOp(op));
  }

  /** log_write, undisturbed between its test and its append, is two steps. */
  method LogWriteStep(log: Log, ghost s: State, ghost i: nat, b: nat, data: Block) returns (panic: bool, ghost t: State)
    requires Shows(log, s) && Enabled(log.l, s, LogTest(i, b, data))
    modifies log`n, log`dirty, log.block
    ensures panic <==> Next(log.l, s, LogTest(i, b, data)).phase == Panicked
    ensures !panic ==>
      && Enabled(log.l, Next(log.l, s, LogTest(i, b, data)), LogAppend(i))
      && t == Next(log.l, Next(log.l, s, LogTest(i, b, data)), LogAppend(i)) && Shows(log, t)
  {
    t := s;
    panic := log.LogWrite(b, data);
    if !panic {
      t := Next(log.l, Next(log.l, s, LogTest(i, b, data)), LogAppend(i));
    }
  }

  // ----- a commit run to its end -----

  predicate CommitActions(acts: seq<Action>) {
    forall k :: 0 <= k < |acts| ==> acts[k] == CommitWrite || acts[k] == CommitDone
  }

  /** k steps into a commit that began in s. */
  ghost predicate Committed(l: Layout, s: State, t: State, k: nat)
    requires CanCommit(l, s)
  {
    && k <= |Pending(l, s)|
    && t == s.(disk := Apply(s.phase.d0, Pending(l, s)[..k]), dirty := t.dirty, phase := Committing(s.phase.d0, s.phase.v0, k))
    && (forall b :: b in t.dirty ==> b in s.dirty && forall j :: 0 <= j < k ==> Pending(l, s)[j].addr != b)
  }

  lemma CommitStep(l: Layout, s: State, t: State, k: nat)
    requires CanCommit(l, s) && Committed(l, s, t, k) && k < |Pending(l, s)|
    ensures Enabled(l, t, CommitWrite) && Committed(l, s, Next(l, t, CommitWrite), k + 1)
  {
    hide Apply, CommitWrites, WellFormed, Loggable;
    ApplySnoc(s.phase.d0, Pending(l, s), k);
  }

  lemma {:induction false} CommitSteps(l: Layout, s: State, k: nat) returns (acts: seq<Action>)
    requires CanCommit(l, s) && s.phase.k == 0 && s.disk == s.phase.d0 && k <= |Pending(l, s)|
    ensures CommitActions(acts) && Exec(l, s, acts).Some? && Committed(l, s, Exec(l, s, acts).value, k)
    decreases k
  {
    hide Committed, Exec, Enabled, Next, CanCommit;
    if k == 0 {
      acts := [];
      CommitStart(l, s);
    } else {
      acts := CommitSteps(l, s, k - 1);
      CommitStep(l, s, Exec(l, s, acts).value, k - 1);
      ExecSnoc(l, s, acts, CommitWrite);
      acts := acts + [CommitWrite];
    }
  }

  lemma CommitStart(l: Layout, s: State)
    requires CanCommit(l, s) && s.phase.k == 0 && s.disk == s.phase.d0
    ensures Exec(l, s, []) == Some(s) && Committed(l, s, s, 0)
  {
    assert Pending(l, s)[..0] == [];
  }

  /** Once every write is done, nothing is pinned and the log is empty in memory. */
  lemma CommitEnds(l: Layout, s: State, t: State)
    requires CanCommit(l, s) && Committed(l, s, t, |Pending(l, s)|) && forall b :: b in s.dirty ==> b in s.lh
    ensures Enabled(l, t, CommitDone)
    ensures Next(l, t, CommitDone) ==
      s.(disk := Apply(s.phase.d0, Pending(l, s)), dirty := map[], phase := Running, lh := [], durable := |s.hist|)
  {
    hide Apply, CommitWrites, WellFormed, Loggable;
    var ws := Pending(l, s);
    assert ws[..|ws|] == ws;
    forall b | b in t.dirty
      ensures false
    {
      var i :| 0 <= i < |s.lh| && s.lh[i] == b;
      CommitUnpins(l, s.phase.d0, s.phase.v0, s.lh, i);
    }
    assert t.dirty == map[];
  }

  /** All the steps from the start of a commit to its end. */
  lemma CommitWhole(l: Layout, s: State) returns (acts: seq<Action>)
    requires CanCommit(l, s) && s.phase.k == 0 && s.disk == s.phase.d0 && forall b :: b in s.dirty ==> b in s.lh
    ensures CommitActions(acts) && Exec(l, s, acts) ==
      Some(s.(disk := Apply(s.phase.d0, Pending(l, s)), dirty := map[], phase := Running, lh := [], durable := |s.hist|))
  {
    hide Exec, Enabled, Next, Committed, CanCommit;
    acts := CommitSteps(l, s, |Pending(l, s)|);
    CommitEnds(l, s, Exec(l, s, acts).value);
    ExecSnoc(l, s, acts, CommitDone);
    acts := acts + [CommitDone];
  }

  lemma {:induction false} ExecConcat(l: Layout, s: State, a: seq<Action>, b: seq<Action>)
    requires Exec(l, s, a).Some? && Exec(l, Exec(l, s, a).value, b).Some?
    ensures Exec(l, s, a + b) == Exec(l, Exec(l, s, a).value, b)
  {
    if b == [] {
      assert a + b == a;
    } else {
      var n := |b| - 1;
      assert a + b == a + b[..n] + [b[n]];
      ExecConcat(l, s, a, b[..n]);
      assert (a + b)[..|a| + n] == a + b[..n];
    }
  }

  /** end_op is one step or, for the last operation out, that step and the whole commit. */
  method EndStep(log: Log, ghost s: State, ghost i: nat) returns (panic: bool, ghost acts: seq<Action>)
    requires Shows(log, s) && Enabled(log.l, s, EndOp(i))
    modifies log`disk, log`dirty, log`trace, log`n, log`outstanding, log`committing
    ensures acts != [] && acts[0] == EndOp(i) && CommitActions(acts[1..]) && Exec(log.l, s, acts).Some?
    ensures panic <==> Exec(log.l, s, acts).value.phase == Panicked
    ensures !panic ==> Shows(log, Exec(log.l, s, acts).value)
  {
    hide Exec, CommitWrites, LogEmpty, WellFormed;
    ghost var t := Next(log.l, s, EndOp(i));
    ExecNone(log.l, s);
    ExecSnoc(log.l, s, [], EndOp(i));
    acts := [] + [EndOp(i)];
    panic := log.EndOp();
    if t.phase.Committing? {
      if panic {
        ExecSnoc(log.l, s, acts, CommitWrite);
        acts := acts + [CommitWrite];
      } else {
        ghost var more := CommitWhole(log.l, t);
        ExecConcat(log.l, s, acts, more);
        acts := acts + more;
      }
    }
  }

  lemma ExecNone(l: Layout, s: State)
    ensures Exec(l, s, []) == Some(s)
  {
  }

  // ----- a group of operations, from first to last -----

  lemma ViewWrite(d: Disk, dirty: map<nat, Block>, b: nat, data: Block)
    requires b < |d|
    ensures View(d, dirty[b := data]) == View(d, dirty)[b := data]
  {
  }

  /** What is cached over the disk once the writes are logged. */
  lemma LoggedView(d: Disk, dirty: map<nat, Block>, ws: seq<Write>, j: nat)
    requires j < |ws| && ws[j].addr < |d| && View(d, dirty) == Apply(d, ws[..j])
    ensures View(d, dirty[ws[j].addr := ws[j].data]) == Apply(d, ws[..j + 1])
  {
    hide Apply, View;
    ViewWrite(d, dirty, ws[j].addr, ws[j].data);
    ApplySnoc(d, ws, j);
  }

  /** Begin k operations and log their writes; every call succeeds. */
  method BeginGroup(log: Log, k: nat, ws: seq<Write>) returns (ok: bool)
    requires log.Valid() && LogEmpty(log.l, log.disk) && !log.committing && log.outstanding == 0 && log.n == 0
    requires 1 <= k <= 3 && |ws| < NBUF && |ws| < log.l.size
    requires forall w :: w in ws ==> w.addr < |log.disk| && !InLog(log.l, w.addr)
    modifies log`n, log`dirty, log`outstanding, log.block
    ensures ok && log.Valid() && log.outstanding == k && log.n <= |ws|
    ensures View(log.disk, log.dirty) == Apply(log.disk, ws)
  {
    hide Apply, LogEmpty, WellFormed, Homes;
    var i := 0;
    while i < k
      invariant 0 <= i <= k && log.outstanding == i && log.Valid() && log.n == 0 && log.dirty == map[]
    {
      ok := log.BeginOp();
      if !ok {
        return;
      }
      i := i + 1;
    }
    ApplyNone(log.disk);
    assert View(log.disk, map[]) == log.disk && ws[..0] == [];
    var j := 0;
    while j < |ws|
      invariant 0 <= j <= |ws| && log.outstanding == k && log.Valid() && log.n <= j
      invariant View(log.disk, log.dirty) == Apply(log.disk, ws[..j])
    {
      LoggedView(log.disk, log.dirty, ws, j);
      assert ws[j] in ws;
      var panic := log.LogWrite(ws[j].addr, ws[j].data);
      if panic {
        return false;
      }
      j := j + 1;
    }
    assert ws[..|ws|] == ws;
    return true;
  }

  /**
  k operations begin, log their writes and end.  No call is refused or panics, nothing reaches the disk
  before the last end_op, and then the home blocks are those of the disk before with the writes applied in order.
  */
  method RunGroup(log: Log, k: nat, ws: seq<Write>) returns (ok: bool)
    requires log.Valid() && LogEmpty(log.l, log.disk) && !log.committing && log.outstanding == 0 && log.n == 0
    requires 1 <= k <= 3 && |ws| < NBUF && |ws| < log.l.size
    requires forall w :: w in ws ==> w.addr < |log.disk| && !InLog(log.l, w.addr)
    modifies log, log.block
    ensures ok && log.Valid() && LogEmpty(log.l, log.disk) && !log.committing && log.outstanding == 0 && log.n == 0
    ensures SameHome(log.l, log.disk, Apply(old(log.disk), ws))
  {
    hide Apply, CommitWrites, WellFormed, Homes, LogEmpty;
    ok := BeginGroup(log, k, ws);
    ghost var d, dirty, lh := log.disk, log.dirty, log.Lh();
    var i := 0;
    while i < k
      invariant 0 <= i <= k && log.outstanding == k - i && !log.committing && log.Valid() && LogEmpty(log.l, log.disk)
      invariant i < k ==> log.disk == d && log.dirty == dirty && log.Lh() == lh && log.n < NBUF
      invariant i == k ==> log.n == 0 && Loggable(log.l, |d|, lh) && log.disk == Apply(d, CommitWrites(log.l, d, View(d, dirty), lh))
    {
      var panic := log.EndOp();
      if panic {
        return false;
      }
      i := i + 1;
    }
    ghost var ws' := CommitWrites(log.l, d, View(d, dirty), lh);
    assert ws'[..|ws'|] == ws';
    CommitCut(log.l, d, View(d, dirty), lh, |ws'|);
    return true;
  }
}
