/**
begin_op, log_write, end_op, commit and recovery as atomic steps of one machine,
with a crash possible between any two disk writes.  The state carries the history
of what the operations asked for, so that a recovered disk can be compared with
the effect of whole operations.
*/
module GroupCommit {
  import opened Params
  import opened LogDisk

  datatype Event = Began(op: nat) | Wrote(op: nat, addr: nat, data: Block) | Ended(op: nat)

  /**
  An operation between begin_op and end_op: the distinct blocks it has logged, and the write with which
  it is inside log_write, past the size test and waiting for the lock.
  */
  datatype Op = Op(id: nat, logged: set<nat>, asked: Option<(nat, Block)>)

  /**
  Committing and Recovering remember the disk (and the cached view) at their start:
  k of the writes computed from it have reached the disk.
  */
  datatype Phase =
    | Running
    | Committing(d0: Disk, v0: Disk, k: nat)
    | Recovering(r0: Disk, j: nat)
    | Panicked

  /** active stands for log.outstanding, Committing for log.committing, lh for log.lh. */
  datatype State = State(
    disk: Disk,
    dirty: map<nat, Block>,
    lh: seq<nat>,
    active: seq<Op>,
    phase: Phase,
    hist: seq<Event>,
    durable: nat)

  datatype Action =
    | BeginOp(op: nat)
    | LogTest(i: nat, addr: nat, data: Block)
    | LogAppend(i: nat)
    | EndOp(i: nat)
    | CommitWrite
    | CommitDone
    | RecoverWrite
    | RecoverDone
    | Crash

  /** What bread shows: the pinned buffer if there is one, the disk otherwise. */
  function View(d: Disk, dirty: map<nat, Block>): (v: Disk)
    ensures |v| == |d|
  {
    seq(|d|, b requires 0 <= b < |d| => if b in dirty then dirty[b] else d[b])
  }

  function Replay(d: Disk, h: seq<Event>): (r: Disk)
    ensures |r| == |d|
  {
    if h == [] then d else
      var p := Replay(d, h[..|h| - 1]);
      var e := h[|h| - 1];
      if e.Wrote? && e.addr < |p| then p[e.addr := e.data] else p
  }

  function Begin(s: State, op: nat): State {
    if s.phase.Committing? || |s.lh| + (|s.active| + 1) * MAXOPBLOCKS > LOGSIZE then
      s  // sleeps
    else
      s.(active := s.active + [Op(op, {}, None)], hist := s.hist + [Began(op)])
  }

  /** log_write refuses before it looks for absorption. */
  predicate TooBig(l: Layout, lh: seq<int>) {
    |lh| >= LOGSIZE || |lh| >= l.size - 1
  }

  /** The size test of log_write, made before the lock is taken. */
  function Test(l: Layout, s: State, i: nat, b: nat, data: Block): State
    requires i < |s.active|
  {
    if TooBig(l, s.lh) then s.(phase := Panicked)
    else s.(active := s.active[i := s.active[i].(asked := Some((b, data)))])
  }

  /** The rest of log_write, under the lock: absorb or append, whatever the length has become. */
  function Append(s: State, i: nat): State
    requires i < |s.active| && s.active[i].asked.Some?
  {
    var o := s.active[i];
    var (b, data) := o.asked.value;
    s.(lh := if b in s.lh then s.lh else s.lh + [b],
       dirty := s.dirty[b := data],
       active := s.active[i := Op(o.id, o.logged + {b}, None)],
       hist := s.hist + [Wrote(o.id, b, data)])
  }

  function End(s: State, i: nat): State
    requires i < |s.active|
  {
    if s.phase.Committing? then s.(phase := Panicked) else
      var rest := s.active[..i] + s.active[i + 1..];
      s.(active := rest,
         hist := s.hist + [Ended(s.active[i].id)],
         phase := if rest == [] then Committing(s.disk, View(s.disk, s.dirty), 0) else Running)
  }

  /**
  Every buffer is pinned by a logged block of its own.  write_log then finds no buffer for its first
  slot, and bget panics before anything reaches the disk.
  */
  predicate AllPinned(lh: seq<nat>) {
    |lh| >= NBUF
  }

  predicate CanCommit(l: Layout, s: State) {
    && s.phase.Committing? && !AllPinned(s.lh)
    && |s.phase.v0| == |s.phase.d0|
    && WellFormed(l, s.phase.d0)
    && Loggable(l, |s.phase.d0|, s.lh)
  }

  function Pending(l: Layout, s: State): seq<Write>
    requires CanCommit(l, s)
  {
    CommitWrites(l, s.phase.d0, s.phase.v0, s.lh)
  }

  predicate Enabled(l: Layout, s: State, a: Action) {
    match a
    case BeginOp(op) =>
      && (s.phase.Running? || s.phase.Committing?)
      && forall e :: e in s.hist ==> e.op != op
    case LogTest(i, b, data) =>
      // the discipline of every file system call: at most MAXOPBLOCKS distinct home blocks
      && (s.phase.Running? || s.phase.Committing?)
      && i < |s.active| && s.active[i].asked.None?
      && b < |s.disk| && !InLog(l, b)
      && |s.active[i].logged + {b}| <= MAXOPBLOCKS
    case LogAppend(i) => (s.phase.Running? || s.phase.Committing?) && i < |s.active| && s.active[i].asked.Some?
    case EndOp(i) => (s.phase.Running? || s.phase.Committing?) && i < |s.active| && s.active[i].asked.None?
    case CommitWrite =>
      s.phase.Committing? && (AllPinned(s.lh) || (CanCommit(l, s) && s.phase.k < |Pending(l, s)|))
    case CommitDone => CanCommit(l, s) && s.phase.k == |Pending(l, s)|
    case RecoverWrite =>
      s.phase.Recovering? && WellFormed(l, s.phase.r0) && s.phase.j < |RecoverWrites(l, s.phase.r0)|
    case RecoverDone =>
      s.phase.Recovering? && WellFormed(l, s.phase.r0) && s.phase.j == |RecoverWrites(l, s.phase.r0)|
    case Crash => true
  }

  /** Where the surviving history ends if the machine stops now. */
  function Survives(s: State): nat {
    match s.phase
    case Committing(_, _, k) => if s.lh != [] && k <= |s.lh| then s.durable else |s.hist|
    case _ => s.durable
  }

  function Reboot(s: State): State {
    var c := if Survives(s) <= |s.hist| then Survives(s) else |s.hist|;
    State(s.disk, map[], [], [], Recovering(s.disk, 0), s.hist[..c], c)
  }

  function Next(l: Layout, s: State, a: Action): State
    requires Enabled(l, s, a)
  {
    match a
    case BeginOp(op) => Begin(s, op)
    case LogTest(i, b, data) => Test(l, s, i, b, data)
    case LogAppend(i) => Append(s, i)
    case EndOp(i) => End(s, i)
    case CommitWrite =>
      if AllPinned(s.lh) then s.(phase := Panicked) else
      var w := Pending(l, s)[s.phase.k];
      s.(disk := ApplyOne(s.disk, w), dirty := s.dirty - {w.addr}, phase := Committing(s.phase.d0, s.phase.v0, s.phase.k + 1))
    case CommitDone => s.(phase := Running, lh := [], durable := |s.hist|)
    case RecoverWrite =>
      var w := RecoverWrites(l, s.phase.r0)[s.phase.j];
      s.(disk := ApplyOne(s.disk, w), phase := Recovering(s.phase.r0, s.phase.j + 1))
    case RecoverDone => s.(phase := Running)
    case Crash => Reboot(s)
  }

  function Exec(l: Layout, s: State, acts: seq<Action>): Option<State> {
    if acts == [] then Some(s) else
      var n := |acts| - 1;
      match Exec(l, s, acts[..n])
      case None => None
      case Some(u) => if Enabled(l, u, acts[n]) then Some(Next(l, u, acts[n])) else None
  }

  predicate Init(l: Layout, base: Disk, s: State) {
    && LogEmpty(l, base)
    && s == State(base, map[], [], [], Running, [], 0)
  }

  // ----- bookkeeping of operations -----

  predicate Active(s: State, id: nat) {
    exists i :: 0 <= i < |s.active| && s.active[i].id == id
  }

  /** h[..c] holds whole operations only. */
  ghost predicate Whole(h: seq<Event>, c: nat) {
    && c <= |h|
    && (forall i, j :: 0 <= i < c <= j < |h| ==> h[i].op != h[j].op)
    && (forall i :: 0 <= i < c ==> Ended(h[i].op) in h[..c])
  }

  ghost predicate Books(s: State) {
    && Whole(s.hist, s.durable)
    && (forall i :: 0 <= i < |s.hist| ==> Active(s, s.hist[i].op) || Ended(s.hist[i].op) in s.hist)
    && (forall i, a :: 0 <= i < s.durable && 0 <= a < |s.active| ==> s.hist[i].op != s.active[a].id)
  }

  function Unspent(active: seq<Op>): int {
    if active == [] then 0
    else Unspent(active[..|active| - 1]) + MAXOPBLOCKS - |active[|active| - 1].logged|
  }

  /** The reservation: what is logged plus what active operations may still log. */
  ghost predicate Reserved(s: State) {
    && |s.lh| + Unspent(s.active) <= LOGSIZE
    && (forall i :: 0 <= i < |s.active| ==> |s.active[i].logged| <= MAXOPBLOCKS)
    && (forall i, b :: 0 <= i < |s.active| && b in s.active[i].logged ==> b in s.lh)
  }

  /** What holds whatever the length of the log: the reservation, distinct home blocks, a quiet commit. */
  ghost predicate Quiet(l: Layout, s: State) {
    && Reserved(s)
    && Distinct(s.lh)
    && (forall i :: 0 <= i < |s.lh| ==> s.lh[i] < |s.disk| && !InLog(l, s.lh[i]))
    && (forall i :: 0 <= i < |s.active| && s.active[i].asked.Some? ==>
          && s.active[i].asked.value.0 < |s.disk| && !InLog(l, s.active[i].asked.value.0)
          && |s.active[i].logged + {s.active[i].asked.value.0}| <= MAXOPBLOCKS)
    && (s.phase.Committing? || s.phase.Recovering? ==> s.active == [])
  }

  // ----- the invariant -----

  /** d holds the committed groups. */
  ghost predicate Settled(l: Layout, base: Disk, s: State, d: Disk) {
    LogEmpty(l, d) && SameHome(l, d, Replay(base, s.hist[..if s.durable <= |s.hist| then s.durable else 0]))
  }

  /** d holds the committed groups, v also the operations since. */
  ghost predicate Steady(l: Layout, base: Disk, s: State, d: Disk, v: Disk) {
    && Settled(l, base, s, d)
    && SameHome(l, v, Replay(base, s.hist))
    && OnlyLogged(l, d, v, s.lh)
  }

  ghost predicate PhaseInv(l: Layout, base: Disk, s: State) {
    match s.phase
    case Running => Steady(l, base, s, s.disk, View(s.disk, s.dirty))
    case Panicked => Settled(l, base, s, s.disk)
    case Committing(d0, v0, k) =>
      && s.active == []
      && |d0| == |s.disk|
      && Steady(l, base, s, d0, v0)
      && if AllPinned(s.lh) then k == 0 && s.disk == d0 else
           && CanCommit(l, s)
           && k <= |Pending(l, s)|
           && s.disk == Apply(d0, Pending(l, s)[..k])
           && forall j, b :: 0 <= j < k && b in s.dirty ==> Pending(l, s)[j].addr != b
    case Recovering(r0, j) =>
      && s.durable == |s.hist| && s.active == [] && s.lh == [] && s.dirty == map[]
      && |r0| == |s.disk|
      && Recovers(l, r0, Replay(base, s.hist))
      && j <= |RecoverWrites(l, r0)|
      && s.disk == Apply(r0, RecoverWrites(l, r0)[..j])
  }

  ghost predicate Inv(l: Layout, base: Disk, s: State) {
    && |s.disk| == |base|
    && (forall b :: b in s.dirty ==> b in s.lh)
    && Books(s)
    && Quiet(l, s)
    && PhaseInv(l, base, s)
  }

  // ----- every step keeps the invariant -----

  lemma ReplaySnoc(d: Disk, h: seq<Event>, e: Event)
    ensures Replay(d, h + [e]) ==
      if e.Wrote? && e.addr < |d| then Replay(d, h)[e.addr := e.data] else Replay(d, h)
  {
    assert (h + [e])[..|h|] == h;
  }

  lemma {:induction false} UnspentUpdate(a: seq<Op>, i: nat, o: Op)
    requires i < |a|
    ensures Unspent(a[i := o]) == Unspent(a) + |a[i].logged| - |o.logged|
  {
    var n := |a| - 1;
    if i == n {
      assert a[i := o][..n] == a[..n];
    } else {
      assert a[i := o][..n] == a[..n][i := o];
      UnspentUpdate(a[..n], i, o);
    }
  }

  lemma {:induction false} UnspentRemove(a: seq<Op>, i: nat)
    requires i < |a|
    ensures Unspent(a[..i] + a[i + 1..]) == Unspent(a) - MAXOPBLOCKS + |a[i].logged|
  {
    var n := |a| - 1;
    if i == n {
      assert a[..i] + a[i + 1..] == a[..n];
    } else {
      var r := a[..i] + a[i + 1..];
      assert r[..|r| - 1] == a[..n][..i] + a[..n][i + 1..];
      UnspentRemove(a[..n], i);
    }
  }

  lemma {:induction false} UnspentBound(a: seq<Op>)
    requires forall i :: 0 <= i < |a| ==> |a[i].logged| <= MAXOPBLOCKS
    ensures 0 <= Unspent(a) <= |a| * MAXOPBLOCKS
    ensures forall i :: 0 <= i < |a| ==> MAXOPBLOCKS - |a[i].logged| <= Unspent(a)
  {
    if a != [] {
      UnspentBound(a[..|a| - 1]);
    }
  }

  lemma UnspentSnoc(active: seq<Op>, o: Op)
    ensures Unspent(active + [o]) == Unspent(active) + MAXOPBLOCKS - |o.logged|
  {
    var a := active + [o];
    assert a[..|a| - 1] == active;
  }

  /** begin_op admits exactly when no commit runs and the log has room for ten blocks of every operation. */
  lemma BeginAdmits(s: State, op: nat)
    ensures var t := Begin(s, op);
            if !s.phase.Committing? && |s.lh| + 10 * |s.active| <= 20
            then t.active == s.active + [Op(op, {}, None)] && t.hist == s.hist + [Began(op)]
                 && t == s.(active := t.active, hist := t.hist)
            else t == s
  {
  }

  lemma BeginReserved(s: State, op: nat)
    requires Reserved(s)
    ensures Reserved(Begin(s, op))
  {
    hide Unspent;
    UnspentSnoc(s.active, Op(op, {}, None));
    UnspentBound(s.active);
  }

  lemma TestReserved(l: Layout, s: State, i: nat, b: nat, data: Block)
    requires Reserved(s) && i < |s.active| && |s.active[i].logged + {b}| <= MAXOPBLOCKS
    ensures Reserved(Test(l, s, i, b, data))
    ensures b !in s.lh ==> |s.lh| < LOGSIZE
  {
    hide Unspent;
    var o := s.active[i];
    UnspentUpdate(s.active, i, o.(asked := Some((b, data))));
    UnspentBound(s.active);
    if b !in o.logged {
      assert |o.logged + {b}| == |o.logged| + 1;
    }
  }

  lemma AppendReserved(s: State, i: nat)
    requires Reserved(s) && i < |s.active| && s.active[i].asked.Some?
    requires |s.active[i].logged + {s.active[i].asked.value.0}| <= MAXOPBLOCKS
    ensures Reserved(Append(s, i)) && |Append(s, i).lh| <= LOGSIZE
  {
    hide Unspent;
    var o := s.active[i];
    var b := o.asked.value.0;
    UnspentUpdate(s.active, i, Op(o.id, o.logged + {b}, None));
    UnspentBound(s.active);
    UnspentBound(Append(s, i).active);
    if b in o.logged {
      assert o.logged + {b} == o.logged;
    } else {
      assert |o.logged + {b}| == |o.logged| + 1;
    }
  }

  lemma EndReserved(s: State, i: nat)
    requires Reserved(s) && i < |s.active|
    ensures Reserved(End(s, i))
  {
    UnspentRemove(s.active, i);
    UnspentBound(s.active);
  }

  lemma BeginBooks(s: State, op: nat)
    requires Books(s) && forall e :: e in s.hist ==> e.op != op
    ensures Books(Begin(s, op))
  {
    var t := Begin(s, op);
    if t != s {
      forall i | 0 <= i < |t.hist|
        ensures Active(t, t.hist[i].op) || Ended(t.hist[i].op) in t.hist
      {
        if i < |s.hist| {
          assert Active(s, s.hist[i].op) ==> Active(t, s.hist[i].op) by {
            if j :| 0 <= j < |s.active| && s.active[j].id == s.hist[i].op {
              assert t.active[j].id == s.hist[i].op;
            }
          }
        } else {
          assert t.active[|s.active|].id == op;
        }
      }
      assert t.hist[..s.durable] == s.hist[..s.durable];
      assert forall i :: 0 <= i < s.durable ==> s.hist[i] in s.hist;
    }
  }

  lemma TestBooks(l: Layout, s: State, i: nat, b: nat, data: Block)
    requires Books(s) && i < |s.active|
    ensures Books(Test(l, s, i, b, data))
  {
    var t := Test(l, s, i, b, data);
    assert forall a :: 0 <= a < |s.active| ==> t.active[a].id == s.active[a].id;
    assert forall id :: Active(s, id) <==> Active(t, id);
  }

  lemma AppendBooks(s: State, i: nat)
    requires Books(s) && i < |s.active| && s.active[i].asked.Some?
    ensures Books(Append(s, i))
  {
    var t := Append(s, i);
    assert forall a :: 0 <= a < |s.active| ==> t.active[a].id == s.active[a].id;
    forall j | 0 <= j < |t.hist|
      ensures Active(t, t.hist[j].op) || Ended(t.hist[j].op) in t.hist
    {
      if j < |s.hist| {
        if a :| 0 <= a < |s.active| && s.active[a].id == s.hist[j].op {
          assert t.active[a].id == s.hist[j].op;
        }
      } else {
        assert t.active[i].id == t.hist[j].op;
      }
    }
    assert t.hist[..s.durable] == s.hist[..s.durable];
  }

  lemma EndBooks(s: State, i: nat)
    requires Books(s) && i < |s.active| && !s.phase.Committing?
    ensures Books(End(s, i))
  {
    var t := End(s, i);
    forall j | 0 <= j < |t.hist|
      ensures Active(t, t.hist[j].op) || Ended(t.hist[j].op) in t.hist
    {
      if j < |s.hist| {
        if Ended(s.hist[j].op) in s.hist {
          assert Ended(s.hist[j].op) in t.hist;
        } else {
          var a :| 0 <= a < |s.active| && s.active[a].id == s.hist[j].op;
          if a == i {
            assert t.hist[|s.hist|] == Ended(s.hist[j].op);
          } else {
            var k := if a < i then a else a - 1;
            assert t.active[k].id == s.hist[j].op;
          }
        }
      } else {
        assert t.hist[j] in t.hist;
      }
    }
    assert t.hist[..s.durable] == s.hist[..s.durable];
    forall a | 0 <= a < |t.active|
      ensures exists k :: 0 <= k < |s.active| && t.active[a] == s.active[k]
    {
      assert t.active[a] == s.active[if a < i then a else a + 1];
    }
  }

  lemma BeginPhase(l: Layout, base: Disk, s: State, op: nat)
    requires Inv(l, base, s) && (s.phase.Running? || s.phase.Committing?)
    ensures PhaseInv(l, base, Begin(s, op))
  {
    var t := Begin(s, op);
    if t != s {
      ReplaySnoc(base, s.hist, Began(op));
      assert t.hist[..s.durable] == s.hist[..s.durable];
    }
  }

  lemma TestPhase(l: Layout, base: Disk, s: State, i: nat, b: nat, data: Block)
    requires Inv(l, base, s) && s.phase.Running? && i < |s.active|
    ensures PhaseInv(l, base, Test(l, s, i, b, data))
  {
    SteadyFrame(l, base, s, Test(l, s, i, b, data), s.disk, View(s.disk, s.dirty));
  }

  lemma AppendPhase(l: Layout, base: Disk, s: State, i: nat)
    requires Inv(l, base, s) && s.phase.Running? && i < |s.active| && s.active[i].asked.Some?
    ensures PhaseInv(l, base, Append(s, i))
  {
    hide Replay, Reserved, LogEmpty, CommitWrites, RecoverWrites, Apply;
    var t := Append(s, i);
    var (b, data) := s.active[i].asked.value;
    var v, w := View(s.disk, s.dirty), View(t.disk, t.dirty);
    ReplaySnoc(base, s.hist, Wrote(s.active[i].id, b, data));
    assert t.hist[..s.durable] == s.hist[..s.durable];
    assert w == v[b := data];
    assert b in t.lh;
    assert forall x :: x in s.lh ==> x in t.lh;
  }

  lemma EndPhase(l: Layout, base: Disk, s: State, i: nat)
    requires l.size >= LOGSIZE && Inv(l, base, s) && s.phase.Running? && i < |s.active|
    ensures PhaseInv(l, base, End(s, i))
  {
    hide Replay, Reserved;
    var t := End(s, i);
    ReplaySnoc(base, s.hist, Ended(s.active[i].id));
    assert t.hist[..s.durable] == s.hist[..s.durable];
    assert Steady(l, base, t, s.disk, View(s.disk, s.dirty));
    if t.phase.Committing? && !AllPinned(t.lh) {
      LongLogFits(l, s);
      assert Pending(l, t)[..0] == [];
    }
  }

  lemma SteadyFrame(l: Layout, base: Disk, s: State, t: State, d: Disk, v: Disk)
    requires Steady(l, base, s, d, v)
    requires t.hist == s.hist && t.durable == s.durable && t.lh == s.lh
    ensures Steady(l, base, t, d, v)
  {
  }

  lemma CommitWritePhase(l: Layout, base: Disk, s: State)
    requires PhaseInv(l, base, s) && Enabled(l, s, CommitWrite)
    ensures PhaseInv(l, base, Next(l, s, CommitWrite))
  {
    hide Apply, CommitWrites, Replay, Loggable, Header;
    var t := Next(l, s, CommitWrite);
    SteadyFrame(l, base, s, t, s.phase.d0, s.phase.v0);
    if !AllPinned(s.lh) {
      CommitWriteDisk(s.phase.d0, Pending(l, s), s.phase.k, s.disk, s.dirty);
    }
  }

  lemma CommitWriteDisk(d0: Disk, ws: seq<Write>, k: nat, disk: Disk, dirty: map<nat, Block>)
    requires k < |ws| && disk == Apply(d0, ws[..k])
    requires forall j, b :: 0 <= j < k && b in dirty ==> ws[j].addr != b
    ensures ApplyOne(disk, ws[k]) == Apply(d0, ws[..k + 1])
    ensures forall j, b :: 0 <= j < k + 1 && b in dirty - {ws[k].addr} ==> ws[j].addr != b
  {
    ApplySnoc(d0, ws, k);
  }

  /** Every logged home block is among commit's writes, so no buffer stays pinned. */
  lemma CommitUnpins(l: Layout, d: Disk, v: Disk, lh: seq<int>, i: nat)
    requires |v| == |d| && WellFormed(l, d) && Loggable(l, |d|, lh) && i < |lh|
    ensures |lh| + 1 + i < |CommitWrites(l, d, v, lh)|
    ensures CommitWrites(l, d, v, lh)[|lh| + 1 + i].addr == lh[i]
  {
    var p, r := Prepare(l, d, v, lh), Finish(l, d, v, lh);
    assert (p + r)[|p| + i] == r[i];
  }

  lemma CommitDoneClean(l: Layout, base: Disk, s: State)
    requires Inv(l, base, s) && Enabled(l, s, CommitDone)
    ensures s.dirty == map[]
  {
    hide Steady, Books, Reserved, CommitWrites, Loggable, WellFormed;
    forall b | b in s.dirty
      ensures false
    {
      var i :| 0 <= i < |s.lh| && s.lh[i] == b;
      CommitUnpins(l, s.phase.d0, s.phase.v0, s.lh, i);
    }
  }

  lemma CommitDonePhase(l: Layout, base: Disk, s: State)
    requires Inv(l, base, s) && Enabled(l, s, CommitDone)
    ensures Next(l, s, CommitDone).dirty == map[]
    ensures PhaseInv(l, base, Next(l, s, CommitDone))
  {
    hide Books, Reserved, CommitWrites, RecoverWrites, Apply, Replay, WellFormed, Header, Loggable, Recovers;
    var ws := Pending(l, s);
    assert ws[..|ws|] == ws;
    CommitCut(l, s.phase.d0, s.phase.v0, s.lh, |ws|);
    CommitDoneClean(l, base, s);
    assert View(s.disk, map[]) == s.disk;
    assert s.hist[..|s.hist|] == s.hist;
  }

  lemma RecoverWritePhase(l: Layout, base: Disk, s: State)
    requires Inv(l, base, s) && Enabled(l, s, RecoverWrite)
    ensures PhaseInv(l, base, Next(l, s, RecoverWrite))
  {
    ApplySnoc(s.phase.r0, RecoverWrites(l, s.phase.r0), s.phase.j);
  }

  lemma RecoverDonePhase(l: Layout, base: Disk, s: State)
    requires Inv(l, base, s) && Enabled(l, s, RecoverDone)
    ensures PhaseInv(l, base, Next(l, s, RecoverDone))
  {
    var ws := RecoverWrites(l, s.phase.r0);
    assert ws[..|ws|] == ws;
    RecoverCut(l, s.phase.r0, Replay(base, s.hist), |ws|);
    assert View(s.disk, s.dirty) == s.disk;
    assert s.hist[..|s.hist|] == s.hist;
  }

  /** With no operation active every operation in the history has ended. */
  lemma QuietIsWhole(s: State)
    requires Books(s) && s.active == []
    ensures Whole(s.hist, |s.hist|)
  {
    assert s.hist[..|s.hist|] == s.hist;
  }

  /** The surviving history is a prefix of whole operations that keeps every finished group. */
  lemma SurvivesWhole(l: Layout, base: Disk, s: State)
    requires Inv(l, base, s)
    ensures s.durable <= Survives(s) <= |s.hist| && Whole(s.hist, Survives(s))
  {
    if s.active == [] {
      QuietIsWhole(s);
    }
  }

  /** Whatever the machine was doing, recovery of the disk it left replays the surviving history. */
  lemma CrashRecovers(l: Layout, base: Disk, s: State)
    requires Inv(l, base, s)
    ensures Survives(s) <= |s.hist|
    ensures Recovers(l, s.disk, Replay(base, s.hist[..Survives(s)]))
  {
    SurvivesWhole(l, base, s);
    assert s.hist[..|s.hist|] == s.hist;
    match s.phase
    case Committing(d0, v0, k) =>
      if AllPinned(s.lh) {
        return;
      }
      CommitCut(l, d0, v0, s.lh, k);
      if s.lh != [] && k <= |s.lh| {
        RecoversSameHome(l, s.disk, d0, Replay(base, s.hist[..s.durable]));
      } else {
        RecoversSameHome(l, s.disk, v0, Replay(base, s.hist));
      }
    case Recovering(r0, j) =>
      RecoverCut(l, r0, Replay(base, s.hist), j);
    case _ =>
  }

  lemma CrashInv(l: Layout, base: Disk, s: State)
    requires Inv(l, base, s)
    ensures Inv(l, base, Reboot(s))
  {
    SurvivesWhole(l, base, s);
    CrashRecovers(l, base, s);
    var c := Survives(s);
    var t := Reboot(s);
    assert t.hist == s.hist[..c] && t.hist[..c] == t.hist;
    assert RecoverWrites(l, s.disk)[..0] == [];
    assert Books(t);
  }

  lemma PhaseFacts(l: Layout, base: Disk, s: State)
    requires PhaseInv(l, base, s)
    ensures s.phase.Recovering? ==> s.durable == |s.hist| && s.lh == [] && s.dirty == map[]
  {
  }

  // ----- logs of any length -----

  lemma AppendQuiet(l: Layout, s: State, i: nat)
    requires Quiet(l, s) && i < |s.active| && s.active[i].asked.Some?
    ensures Quiet(l, Append(s, i))
  {
    hide Unspent, Reserved;
    AppendReserved(s, i);
  }

  lemma EndQuiet(l: Layout, s: State, i: nat)
    requires Quiet(l, s) && i < |s.active|
    ensures Quiet(l, End(s, i))
  {
    hide Unspent, Reserved;
    EndReserved(s, i);
    var t := End(s, i);
    assert forall a :: 0 <= a < |t.active| ==> t.active[a] == s.active[if a < i then a else a + 1];
  }

  lemma StepQuiet(l: Layout, s: State, a: Action)
    requires Quiet(l, s) && Enabled(l, s, a)
    ensures Quiet(l, Next(l, s, a)) && |Next(l, s, a).disk| == |s.disk|
  {
    hide Unspent, Reserved, CommitWrites, RecoverWrites, WellFormed, Loggable;
    match a
    case BeginOp(op) => BeginReserved(s, op);
    case LogTest(i, b, data) => TestReserved(l, s, i, b, data);
    case LogAppend(i) => AppendQuiet(l, s, i);
    case EndOp(i) => EndQuiet(l, s, i);
    case CommitWrite => SameReserved(s, Next(l, s, a));
    case RecoverWrite => SameReserved(s, Next(l, s, a));
    case RecoverDone => SameReserved(s, Next(l, s, a));
    case CommitDone => EmptyReserved(Next(l, s, a));
    case Crash => EmptyReserved(Next(l, s, a));
  }

  lemma SameReserved(s: State, t: State)
    requires Reserved(s) && t.lh == s.lh && t.active == s.active
    ensures Reserved(t)
  {
  }

  lemma EmptyReserved(t: State)
    requires t.lh == [] && t.active == []
    ensures Reserved(t)
  {
  }

  lemma {:induction false} RunQuiet(l: Layout, s: State, acts: seq<Action>)
    requires Quiet(l, s) && Exec(l, s, acts).Some?
    ensures Quiet(l, Exec(l, s, acts).value) && |Exec(l, s, acts).value.disk| == |s.disk|
  {
    hide Quiet;
    if acts != [] {
      var n := |acts| - 1;
      RunQuiet(l, s, acts[..n]);
      StepQuiet(l, Exec(l, s, acts[..n]).value, acts[n]);
    }
  }

  /** A log of LOGSIZE blocks has a slot for every block of a group that gets past its first bread. */
  lemma LongLogFits(l: Layout, s: State)
    requires Quiet(l, s) && l.size >= LOGSIZE && !AllPinned(s.lh)
    ensures Loggable(l, |s.disk|, s.lh)
  {
    UnspentBound(s.active);
  }

  // ----- logs of at least LOGSIZE blocks -----

  /** Every step keeps the invariant. */
  lemma StepInv(l: Layout, base: Disk, s: State, a: Action)
    requires l.size >= LOGSIZE && Inv(l, base, s) && Enabled(l, s, a)
    ensures Inv(l, base, Next(l, s, a))
  {
    hide PhaseInv, Steady, Replay, Apply, CommitWrites, RecoverWrites, LogEmpty, Unspent, Header, View, Reserved, Loggable, Quiet;
    PhaseFacts(l, base, s);
    StepQuiet(l, s, a);
    QuietCommit(l, s);
    match a
    case BeginOp(op) =>
      BeginBooks(s, op);
      BeginPhase(l, base, s, op);
    case LogTest(i, b, data) =>
      TestBooks(l, s, i, b, data);
      TestPhase(l, base, s, i, b, data);
    case LogAppend(i) =>
      AppendBooks(s, i);
      AppendPhase(l, base, s, i);
    case EndOp(i) =>
      EndBooks(s, i);
      EndPhase(l, base, s, i);
    case CommitWrite =>
      CommitWritePhase(l, base, s);
      assert forall id :: Active(s, id) <==> Active(Next(l, s, a), id);
    case CommitDone =>
      CommitDonePhase(l, base, s);
      QuietIsWhole(s);
    case RecoverWrite => RecoverWritePhase(l, base, s);
    case RecoverDone => RecoverDonePhase(l, base, s);
    case Crash => CrashInv(l, base, s);
  }

  lemma QuietCommit(l: Layout, s: State)
    requires Quiet(l, s)
    ensures s.phase.Committing? || s.phase.Recovering? ==> s.active == []
  {
  }

  /** Every reachable state satisfies the invariant. */
  lemma {:induction false} RunInv(l: Layout, base: Disk, s: State, acts: seq<Action>)
    requires l.size >= LOGSIZE && Inv(l, base, s) && Exec(l, s, acts).Some?
    ensures Inv(l, base, Exec(l, s, acts).value)
  {
    if acts != [] {
      var n := |acts| - 1;
      RunInv(l, base, s, acts[..n]);
      StepInv(l, base, Exec(l, s, acts[..n]).value, acts[n]);
    }
  }

  lemma InitInv(l: Layout, base: Disk, s: State)
    requires Init(l, base, s)
    ensures Inv(l, base, s)
  {
    assert View(base, map[]) == base;
  }

  // ----- what the invariant gives over whole runs -----

  predicate Recovery(acts: seq<Action>) {
    forall i :: 0 <= i < |acts| ==> acts[i].Crash? || acts[i].RecoverWrite? || acts[i].RecoverDone?
  }

  /** Recovery steps and further crashes never change which history survives. */
  lemma {:induction false} RecoveryKeepsHistory(l: Layout, s: State, acts: seq<Action>)
    requires s.phase.Recovering? && s.durable == |s.hist|
    requires Recovery(acts) && Exec(l, s, acts).Some?
    ensures var t := Exec(l, s, acts).value;
            t.hist == s.hist && t.durable == |s.hist| && (t.phase.Recovering? || t.phase.Running?)
  {
    if acts != [] {
      RecoveryKeepsHistory(l, s, acts[..|acts| - 1]);
    }
  }

  /**
  Group commit over whole runs, for a log of at least LOGSIZE blocks, as mkfs makes it: start anywhere
  a run can lead, crash, and crash again as often as you like during recovery; the disk that comes up
  is the effect of a prefix of the history that splits no operation and contains every finished
  commit group.
  */
  lemma GroupCommitTheorem(l: Layout, base: Disk, init: State, acts: seq<Action>, boot: seq<Action>)
    returns (c: nat)
    requires l.size >= LOGSIZE && Init(l, base, init) && Exec(l, init, acts).Some?
    requires Recovery(boot) && Exec(l, Reboot(Exec(l, init, acts).value), boot).Some?
    requires Exec(l, Reboot(Exec(l, init, acts).value), boot).value.phase.Running?
    ensures var s := Exec(l, init, acts).value;
            var t := Exec(l, Reboot(s), boot).value;
            && s.durable <= c <= |s.hist|
            && Whole(s.hist, c)
            && LogEmpty(l, t.disk)
            && SameHome(l, t.disk, Replay(base, s.hist[..c]))
  {
    var s := Exec(l, init, acts).value;
    InitInv(l, base, init);
    RunInv(l, base, init, acts);
    SurvivesWhole(l, base, s);
    CrashInv(l, base, s);
    RunInv(l, base, Reboot(s), boot);
    RecoveryKeepsHistory(l, Reboot(s), boot);
    c := Survives(s);
    var t := Exec(l, Reboot(s), boot).value;
    assert t.hist[..t.durable] == t.hist;
  }

  lemma InitQuiet(l: Layout, base: Disk, init: State)
    requires Init(l, base, init)
    ensures Quiet(l, init)
  {
  }

  /** No operation is outstanding while commit runs, so end_op's own panic is out of reach. */
  lemma CommitIsQuiet(l: Layout, base: Disk, init: State, acts: seq<Action>, i: nat)
    requires Init(l, base, init) && Exec(l, init, acts).Some?
    ensures var s := Exec(l, init, acts).value;
            && (s.phase.Committing? ==> s.active == [])
            && (Enabled(l, s, EndOp(i)) ==> Next(l, s, EndOp(i)).phase != Panicked)
  {
    InitQuiet(l, base, init);
    RunQuiet(l, init, acts);
  }

  /**
  The reservation over whole runs and for every log: logged blocks plus unspent budgets never exceed
  LOGSIZE, so the array in memory never overflows, and the logged numbers are distinct.  A log longer
  than LOGSIZE has a slot for every logged block and never refuses a new one.
  */
  lemma ReservationTheorem(l: Layout, base: Disk, init: State, acts: seq<Action>, a: Action)
    requires Init(l, base, init) && Exec(l, init, acts).Some?
    requires Enabled(l, Exec(l, init, acts).value, a)
    ensures var s := Exec(l, init, acts).value;
            && |s.lh| + Unspent(s.active) <= LOGSIZE && |Next(l, s, a).lh| <= LOGSIZE
            && Distinct(s.lh)
            && (l.size > LOGSIZE ==>
                  && |s.lh| < l.size
                  && (a.LogTest? && a.addr !in s.lh ==> Next(l, s, a).phase != Panicked))
  {
    InitQuiet(l, base, init);
    RunQuiet(l, init, acts);
    var s := Exec(l, init, acts).value;
    StepQuiet(l, s, a);
    UnspentBound(s.active);
    UnspentBound(Next(l, s, a).active);
    if a.LogTest? {
      TestReserved(l, s, a.i, a.addr, a.data);
    }
  }

  // ----- logs that are too short, and groups that are too large -----

  /** Blocks h, h + 1, ... are LOGSIZE home blocks on one side of the log. */
  predicate HomeRoom(l: Layout, n: nat, h: nat) {
    h + LOGSIZE <= n && (h + LOGSIZE <= l.start || l.start + l.size <= h)
  }

  /** Three operations begin, then take turns to log blocks h, h + 1, h + 2, ..., all with the same data. */
  function Fill(h: nat, m: nat, data: Block): seq<Action>
    requires m <= LOGSIZE
  {
    if m == 0 then [BeginOp(0), BeginOp(1), BeginOp(2)]
    else Fill(h, m - 1, data) + [LogTest((m - 1) % 3, h + m - 1, data), LogAppend((m - 1) % 3)]
  }

  /** How many of the first m blocks were operation q's. */
  function Share(q: nat, m: nat): int {
    (m + 2 - q) / 3
  }

  /** With m blocks logged, the next k of them have been asked for. */
  function Turn(q: nat, h: nat, m: nat, k: nat, data: Block): Option<(nat, Block)> {
    if k > 0 && q == m % 3 then Some((h + m, data))
    else if k > 1 && q == (m + 1) % 3 then Some((h + m + 1, data))
    else None
  }

  lemma TurnTaken(q: nat, h: nat, m: nat, k: nat, data: Block)
    requires q < 3
    ensures k < 2 ==> Turn(q, h, m, k + 1, data) == if q == (m + k) % 3 then Some((h + m + k, data)) else Turn(q, h, m, k, data)
    ensures k < 2 && q == (m + k) % 3 ==> Turn(q, h, m, k, data) == None
    ensures 1 <= k <= 2 ==> Turn(q, h, m + 1, k - 1, data) == if q == m % 3 then None else Turn(q, h, m, k, data)
    ensures k > 0 && q == m % 3 ==> Turn(q, h, m, k, data) == Some((h + m, data))
    ensures Share(q, m + 1) == Share(q, m) + if q == m % 3 then 1 else 0
    ensures m + k < LOGSIZE && q == (m + k) % 3 && k < 2 ==> Share(q, m) < MAXOPBLOCKS
  {
  }

  ghost predicate Taking(o: Op, q: nat, h: nat, m: nat, k: nat, data: Block) {
    && |o.logged| == Share(q, m)
    && (forall b :: b in o.logged ==> b < h + m)
    && o.asked == Turn(q, h, m, k, data)
  }

  /** The log holds blocks h, h + 1, ..., m of them, and the next k have been asked for. */
  ghost predicate Filled(s: State, h: nat, m: nat, k: nat, data: Block) {
    && s.phase == Running && s.durable == 0
    && |s.lh| == m && (forall i :: 0 <= i < m ==> s.lh[i] == h + i)
    && |s.active| == 3
    && (forall q :: 0 <= q < 3 ==> Taking(s.active[q], q, h, m, k, data))
    && (m > 0 ==> h in s.active[0].logged)
    && (forall i :: h <= i < h + m ==> i in s.dirty && s.dirty[i] == data)
    && (forall e :: e in s.hist && e.Wrote? ==> h <= e.addr < h + m)
  }

  lemma ExecSnoc(l: Layout, s: State, acts: seq<Action>, a: Action)
    requires Exec(l, s, acts).Some? && Enabled(l, Exec(l, s, acts).value, a)
    ensures Exec(l, s, acts + [a]) == Some(Next(l, Exec(l, s, acts).value, a))
  {
    assert (acts + [a])[..|acts|] == acts;
  }

  lemma FillStart(l: Layout, base: Disk, init: State, h: nat, data: Block)
    requires Init(l, base, init)
    ensures Exec(l, init, Fill(h, 0, data)).Some? && Filled(Exec(l, init, Fill(h, 0, data)).value, h, 0, 0, data)
    ensures Exec(l, init, Fill(h, 0, data)).value.disk == base
  {
    var a := Fill(h, 0, data);
    assert a[..2][..1][..0] == [] && a[..2][..1] == [BeginOp(0)] && a[..2] == [BeginOp(0), BeginOp(1)];
    var s1 := Begin(init, 0);
    assert Exec(l, init, []) == Some(init);
    assert Exec(l, init, [BeginOp(0)]) == Some(s1);
    var s2 := Begin(s1, 1);
    assert Exec(l, init, [BeginOp(0), BeginOp(1)]) == Some(s2);
  }

  lemma OneMore(logged: set<nat>, b: nat)
    requires b !in logged
    ensures |logged + {b}| == |logged| + 1
  {
  }

  /** The operation whose turn comes k blocks from now may ask for its block, if the size test lets it. */
  lemma FillTest(l: Layout, s: State, h: nat, m: nat, k: nat, data: Block)
    requires Filled(s, h, m, k, data) && k < 2 && m + k < LOGSIZE && HomeRoom(l, |s.disk|, h)
    ensures var a := LogTest((m + k) % 3, h + m + k, data);
            && Enabled(l, s, a) && h + m + k !in s.lh && |s.lh| == m
            && (TooBig(l, s.lh) ==> Next(l, s, a).phase == Panicked)
            && (!TooBig(l, s.lh) ==> Filled(Next(l, s, a), h, m, k + 1, data) && Next(l, s, a).disk == s.disk)
  {
    hide Turn, Share;
    var q := (m + k) % 3;
    assert Taking(s.active[q], q, h, m, k, data);
    OneMore(s.active[q].logged, h + m + k);
    TurnTaken(q, h, m, k, data);
    if !TooBig(l, s.lh) {
      var t := Test(l, s, q, h + m + k, data);
      forall p | 0 <= p < 3
        ensures Taking(t.active[p], p, h, m, k + 1, data)
      {
        assert Taking(s.active[p], p, h, m, k, data);
        TurnTaken(p, h, m, k, data);
      }
    }
  }

  /** The first to have asked appends, whatever the size has become. */
  lemma FillAppend(l: Layout, s: State, h: nat, m: nat, k: nat, data: Block)
    requires Filled(s, h, m, k, data) && 1 <= k <= 2
    ensures Enabled(l, s, LogAppend(m % 3))
    ensures Filled(Append(s, m % 3), h, m + 1, k - 1, data) && Append(s, m % 3).disk == s.disk
  {
    hide Turn, Share;
    var q := m % 3;
    assert Taking(s.active[q], q, h, m, k, data);
    TurnTaken(q, h, m, k, data);
    var t := Append(s, q);
    assert h + m !in s.lh;
    OneMore(s.active[q].logged, h + m);
    forall p | 0 <= p < 3
      ensures Taking(t.active[p], p, h, m + 1, k - 1, data)
    {
      assert Taking(s.active[p], p, h, m, k, data);
      TurnTaken(p, h, m, k, data);
    }
  }

  lemma {:induction false} FillRuns(l: Layout, base: Disk, init: State, h: nat, m: nat, data: Block)
    requires Init(l, base, init) && HomeRoom(l, |base|, h) && m <= LOGSIZE && m < l.size
    ensures Exec(l, init, Fill(h, m, data)).Some? && Filled(Exec(l, init, Fill(h, m, data)).value, h, m, 0, data)
    ensures Exec(l, init, Fill(h, m, data)).value.disk == base
  {
    hide Exec, Filled, Header, Loggable;
    if m == 0 {
      FillStart(l, base, init, h, data);
    } else {
      var n := m - 1;
      FillRuns(l, base, init, h, n, data);
      var acts, a, b := Fill(h, n, data), LogTest(n % 3, h + n, data), LogAppend(n % 3);
      var s := Exec(l, init, acts).value;
      FillTest(l, s, h, n, 0, data);
      ExecSnoc(l, init, acts, a);
      FillAppend(l, Next(l, s, a), h, n, 1, data);
      ExecSnoc(l, init, acts + [a], b);
      assert acts + [a, b] == acts + [a] + [b];
    }
  }

  /**
  On any disk with LOGSIZE home blocks in a row, a new block can be refused exactly when the log is
  no longer than LOGSIZE, which is how mkfs builds it.
  */
  lemma ShortLogPanics(l: Layout, base: Disk, init: State, h: nat, data: Block)
    returns (acts: seq<Action>, a: Action)
    requires Init(l, base, init) && HomeRoom(l, |base|, h) && l.size <= LOGSIZE
    ensures Exec(l, init, acts).Some? && a.LogTest?
    ensures var s := Exec(l, init, acts).value;
            a.addr !in s.lh && Enabled(l, s, a) && Next(l, s, a).phase == Panicked
  {
    hide Exec, Filled, Enabled;
    var m := l.size - 1;
    FillRuns(l, base, init, h, m, data);
    acts, a := Fill(h, m, data), LogTest(m % 3, h + m, data);
    FillTest(l, Exec(l, init, acts).value, h, m, 0, data);
  }

  /** Two operations pass the size test together and both append. */
  lemma Race(l: Layout, base: Disk, init: State, h: nat, data: Block) returns (acts: seq<Action>)
    requires Init(l, base, init) && HomeRoom(l, |base|, h) && 2 <= l.size <= LOGSIZE
    ensures Exec(l, init, acts).Some? && Filled(Exec(l, init, acts).value, h, l.size, 0, data)
    ensures Exec(l, init, acts).value.disk == base
  {
    hide Exec, Filled, Init, Enabled, TooBig, Test, Append;
    var m := l.size - 2;
    FillRuns(l, base, init, h, m, data);
    acts := Fill(h, m, data);
    acts := TestNext(l, init, acts, h, m, 0, data);
    acts := TestNext(l, init, acts, h, m, 1, data);
    acts := AppendNext(l, init, acts, h, m, 2, data);
    acts := AppendNext(l, init, acts, h, m + 1, 1, data);
  }

  /**
  So a log shorter than the cache can be overrun.  The last slot that write_log then writes is the first
  block after the log, a home block, which gets a content that no part of the history ever gave it.
  */
  lemma ShortLogOverruns(l: Layout, base: Disk, init: State, h: nat, data: Block)
    returns (acts: seq<Action>)
    requires Init(l, base, init) && HomeRoom(l, |base|, h) && 2 <= l.size < NBUF
    requires l.start + l.size < |base| && base[l.start + l.size] != data
    requires h + LOGSIZE <= l.start || l.start + l.size < h
    ensures Exec(l, init, acts).Some?
    ensures var s, x := Exec(l, init, acts).value, l.start + l.size;
            && s.phase.Committing? && s.disk == base && |s.lh| == l.size && !AllPinned(s.lh) && !InLog(l, x)
            && (forall i :: 0 <= i < |s.lh| ==> s.lh[i] < |View(s.disk, s.dirty)|)
            && Apply(s.disk, LogWrites(l, s.lh, View(s.disk, s.dirty)))[x] == data
            && (forall c :: 0 <= c <= |s.hist| ==> Replay(base, s.hist[..c])[x] == base[x])
  {
    hide Exec, Filled, Init;
    acts := Race(l, base, init, h, data);
    Overrun(l, base, Exec(l, init, acts).value, h, data);
    FilledQuiet(Exec(l, init, acts).value, h, l.size, data);
    acts := EndAll(l, init, acts);
    var s, x := Exec(l, init, acts).value, l.start + l.size;
    forall c | 0 <= c <= |s.hist|
      ensures Replay(base, s.hist[..c])[x] == base[x]
    {
      ReplayMiss(base, s.hist[..c], x);
    }
  }

  /** end_op of an operation that is not inside log_write. */
  lemma EndOne(l: Layout, s: State)
    requires s.phase == Running && s.active != [] && forall q :: 0 <= q < |s.active| ==> s.active[q].asked.None?
    ensures Enabled(l, s, EndOp(0))
    ensures var t := Next(l, s, EndOp(0));
            && t.active == s.active[1..] && SameGroup(s, t)
            && t.phase == if |s.active| == 1 then Committing(s.disk, View(s.disk, s.dirty), 0) else Running
  {
    var t := Next(l, s, EndOp(0));
    assert s.active[..0] + s.active[1..] == s.active[1..];
  }

  /** Nothing happened to what is logged and to the disk. */
  ghost predicate SameGroup(s: State, t: State) {
    && t.disk == s.disk && t.lh == s.lh && t.dirty == s.dirty && t.durable == s.durable
    && forall e :: e in t.hist && e.Wrote? ==> e in s.hist
  }

  /** All operations end, and the last one out starts the commit. */
  lemma {:induction false} EndAll(l: Layout, init: State, acts: seq<Action>) returns (more: seq<Action>)
    requires Exec(l, init, acts).Some?
    requires var s := Exec(l, init, acts).value;
             s.phase == Running && s.active != [] && forall q :: 0 <= q < |s.active| ==> s.active[q].asked.None?
    ensures Exec(l, init, more).Some?
    ensures var s, t := Exec(l, init, acts).value, Exec(l, init, more).value;
            t.phase == Committing(s.disk, View(s.disk, s.dirty), 0) && SameGroup(s, t)
    decreases |Exec(l, init, acts).value.active|
  {
    hide Exec, Enabled, Next, View;
    var s := Exec(l, init, acts).value;
    EndOne(l, s);
    ExecSnoc(l, init, acts, EndOp(0));
    more := acts + [EndOp(0)];
    if |s.active| > 1 {
      more := EndAll(l, init, more);
    }
  }

  lemma FilledQuiet(s: State, h: nat, m: nat, data: Block)
    requires Filled(s, h, m, 0, data)
    ensures s.phase == Running && s.active != [] && |s.lh| == m && s.durable == 0
    ensures forall q :: 0 <= q < |s.active| ==> s.active[q].asked.None?
  {
    assert forall q :: 0 <= q < 3 ==> Taking(s.active[q], q, h, m, 0, data);
  }

  /**
  A log of at least LOGSIZE blocks is not overrun, because a group that could do it has pinned every
  buffer: such a group is reached in some run, and its commit panics with the disk untouched.
  */
  lemma FullGroupPanics(l: Layout, base: Disk, init: State, h: nat, data: Block)
    returns (acts: seq<Action>)
    requires Init(l, base, init) && HomeRoom(l, |base|, h) && l.size >= LOGSIZE
    ensures Exec(l, init, acts).Some?
    ensures var s := Exec(l, init, acts).value;
            && s.phase.Committing? && |s.lh| == NBUF && s.disk == base && s.durable == 0
            && Enabled(l, s, CommitWrite)
            && Next(l, s, CommitWrite).phase == Panicked && Next(l, s, CommitWrite).disk == base
  {
    hide Exec, Filled, Init, Fill;
    if l.size == LOGSIZE {
      acts := Race(l, base, init, h, data);
    } else {
      FillRuns(l, base, init, h, LOGSIZE, data);
      acts := Fill(h, LOGSIZE, data);
    }
    FilledQuiet(Exec(l, init, acts).value, h, LOGSIZE, data);
    acts := EndAll(l, init, acts);
  }

  lemma CommitAddr(l: Layout, d: Disk, v: Disk, lh: seq<int>, k: nat)
    requires |v| == |d| && WellFormed(l, d) && Loggable(l, |d|, lh) && k < |CommitWrites(l, d, v, lh)|
    ensures var a := CommitWrites(l, d, v, lh)[k].addr; InLog(l, a) || a in lh
  {
    hide Apply, PutHeader;
    var p, r := Prepare(l, d, v, lh), Finish(l, d, v, lh);
    var a := CommitWrites(l, d, v, lh)[k].addr;
    if k < |p| {
      assert a == p[k].addr;
    } else {
      assert a == r[k - |p|].addr;
    }
  }

  /**
  The partner of ShortLogOverruns: in every run over a log of at least LOGSIZE blocks, a step of commit
  changes only the log itself and home blocks that operations logged.
  */
  lemma NeverOverrun(l: Layout, base: Disk, init: State, acts: seq<Action>, b: nat)
    requires l.size >= LOGSIZE && Init(l, base, init) && Exec(l, init, acts).Some?
    requires Enabled(l, Exec(l, init, acts).value, CommitWrite) && b < |base|
    ensures var s := Exec(l, init, acts).value;
            && |Next(l, s, CommitWrite).disk| == |s.disk| == |base|
            && (Next(l, s, CommitWrite).disk[b] != s.disk[b] ==> InLog(l, b) || b in s.lh)
  {
    hide Exec, CommitWrites;
    InitInv(l, base, init);
    RunInv(l, base, init, acts);
    var s := Exec(l, init, acts).value;
    if !AllPinned(s.lh) {
      CommitAddr(l, s.phase.d0, s.phase.v0, s.lh, s.phase.k);
    }
  }

  lemma Overrun(l: Layout, base: Disk, s: State, h: nat, data: Block)
    requires Filled(s, h, l.size, 0, data) && s.disk == base && 0 < l.size <= LOGSIZE && HomeRoom(l, |base|, h)
    requires l.start + l.size < |base| && (h + LOGSIZE <= l.start || l.start + l.size < h)
    ensures var x := l.start + l.size;
            && |s.lh| == l.size && !InLog(l, x)
            && (forall i :: 0 <= i < |s.lh| ==> s.lh[i] < |View(s.disk, s.dirty)|)
            && Apply(s.disk, LogWrites(l, s.lh, View(s.disk, s.dirty)))[x] == data
            && (forall e :: e in s.hist && e.Wrote? ==> e.addr != x)
  {
    hide Apply, Taking;
    var v, x := View(s.disk, s.dirty), l.start + l.size;
    var ws := LogWrites(l, s.lh, v);
    assert ws[l.size - 1] == Write(x, v[s.lh[l.size - 1]]);
    ApplyHit(s.disk, ws, l.size - 1);
  }

  lemma {:induction false} ReplayMiss(d: Disk, h: seq<Event>, x: nat)
    requires x < |d| && forall e :: e in h && e.Wrote? ==> e.addr != x
    ensures Replay(d, h)[x] == d[x]
  {
    if h != [] {
      ReplayMiss(d, h[..|h| - 1], x);
    }
  }

  lemma TestNext(l: Layout, init: State, acts: seq<Action>, h: nat, m: nat, k: nat, data: Block) returns (more: seq<Action>)
    requires Exec(l, init, acts).Some? && Filled(Exec(l, init, acts).value, h, m, k, data)
    requires HomeRoom(l, |Exec(l, init, acts).value.disk|, h) && k < 2 && m + k < LOGSIZE && m < l.size - 1
    ensures Exec(l, init, more).Some? && Filled(Exec(l, init, more).value, h, m, k + 1, data)
    ensures Exec(l, init, more).value.disk == Exec(l, init, acts).value.disk
  {
    hide Exec, Filled, HomeRoom;
    var a := LogTest((m + k) % 3, h + m + k, data);
    FillTest(l, Exec(l, init, acts).value, h, m, k, data);
    ExecSnoc(l, init, acts, a);
    more := acts + [a];
  }

  lemma AppendNext(l: Layout, init: State, acts: seq<Action>, h: nat, m: nat, k: nat, data: Block) returns (more: seq<Action>)
    requires Exec(l, init, acts).Some? && Filled(Exec(l, init, acts).value, h, m, k, data) && 1 <= k <= 2
    ensures Exec(l, init, more).Some? && Filled(Exec(l, init, more).value, h, m + 1, k - 1, data)
    ensures Exec(l, init, more).value.disk == Exec(l, init, acts).value.disk
  {
    hide Exec, Filled;
    FillAppend(l, Exec(l, init, acts).value, h, m, k, data);
    ExecSnoc(l, init, acts, LogAppend(m % 3));
    more := acts + [LogAppend(m % 3)];
  }

  /** Even in a long log, rewriting an already logged block is refused once the log is full. */
  lemma FullLogRefusesAbsorption(l: Layout, base: Disk, init: State, h: nat, data: Block)
    returns (acts: seq<Action>, a: Action)
    requires Init(l, base, init) && HomeRoom(l, |base|, h) && l.size > LOGSIZE
    ensures Exec(l, init, acts).Some? && a.LogTest?
    ensures var s := Exec(l, init, acts).value;
            a.addr in s.lh && Enabled(l, s, a) && Next(l, s, a).phase == Panicked
  {
    FillRuns(l, base, init, h, LOGSIZE, data);
    acts, a := Fill(h, LOGSIZE, data), LogTest(0, h, data);
    var s := Exec(l, init, acts).value;
    assert s.lh[0] == h;
    assert s.active[0].logged + {h} == s.active[0].logged;
  }
}
