/**
filewrite over the log: each chunk is one operation, its log_write calls are the operation's writes,
and a crash at any point leaves the effect of whole chunks.
*/
module FileCrash {
  import opened Params
  import opened FsImage
  import opened FsInode
  import opened FsFile
  import opened FileSystem
  import opened FileWrite
  import L = LogDisk
  import G = GroupCommit

  // ----- what a process that runs its operations one after the other puts into the history -----

  function Wrotes(id: nat, ws: seq<L.Write>): (h: seq<G.Event>)
    ensures |h| == |ws|
    ensures forall j :: 0 <= j < |h| ==> h[j] == G.Wrote(id, ws[j].addr, ws[j].data)
  {
    if ws == [] then [] else
      var n := |ws| - 1;
      Wrotes(id, ws[..n]) + [G.Wrote(id, ws[n].addr, ws[n].data)]
  }

  function OpEvents(id: nat, ws: seq<L.Write>): seq<G.Event> {
    [G.Began(id)] + Wrotes(id, ws) + [G.Ended(id)]
  }

  function Script(ids: seq<nat>, txs: seq<seq<L.Write>>): seq<G.Event>
    requires |ids| == |txs|
  {
    if ids == [] then [] else
      var n := |ids| - 1;
      Script(ids[..n], txs[..n]) + OpEvents(ids[n], txs[n])
  }

  lemma {:induction false} ReplayConcat(d: L.Disk, h: seq<G.Event>, g: seq<G.Event>)
    ensures G.Replay(d, h + g) == G.Replay(G.Replay(d, h), g)
  {
    if g == [] {
      assert h + g == h;
    } else {
      var n := |g| - 1;
      assert h + g == h + g[..n] + [g[n]];
      ReplayConcat(d, h, g[..n]);
      G.ReplaySnoc(d, h + g[..n], g[n]);
    }
  }

  lemma {:induction false} ReplayWrotes(d: L.Disk, id: nat, ws: seq<L.Write>)
    ensures G.Replay(d, Wrotes(id, ws)) == L.Apply(d, ws)
  {
    if ws != [] {
      var n := |ws| - 1;
      ReplayWrotes(d, id, ws[..n]);
      G.ReplaySnoc(d, Wrotes(id, ws[..n]), G.Wrote(id, ws[n].addr, ws[n].data));
    }
  }

  /** An operation replays as its writes. */
  lemma ReplayOp(d: L.Disk, h: seq<G.Event>, id: nat, ws: seq<L.Write>)
    ensures G.Replay(d, h + OpEvents(id, ws)) == L.Apply(G.Replay(d, h), ws)
  {
    hide G.Replay, Wrotes;
    var a := h + [G.Began(id)];
    assert h + OpEvents(id, ws) == (a + Wrotes(id, ws)) + [G.Ended(id)];
    G.ReplaySnoc(d, h, G.Began(id));
    ReplayConcat(d, a, Wrotes(id, ws));
    ReplayWrotes(G.Replay(d, a), id, ws);
    G.ReplaySnoc(d, a + Wrotes(id, ws), G.Ended(id));
  }

  lemma {:induction false} HomeApply(l: L.Layout, d: L.Disk, e: L.Disk, ws: seq<L.Write>)
    requires L.SameHome(l, d, e)
    ensures L.SameHome(l, L.Apply(d, ws), L.Apply(e, ws))
  {
    if ws != [] {
      HomeApply(l, d, e, ws[..|ws| - 1]);
    }
  }

  // ----- a history prefix that splits no operation ends between two of them -----

  lemma {:induction false} ScriptOps(ids: seq<nat>, txs: seq<seq<L.Write>>, e: G.Event)
    requires |ids| == |txs| && e in Script(ids, txs)
    ensures e.op in ids
  {
    var n := |ids| - 1;
    if e in Script(ids[..n], txs[..n]) {
      ScriptOps(ids[..n], txs[..n], e);
    }
  }

  lemma LastEvent(h: seq<G.Event>, id: nat, ws: seq<L.Write>, j: nat)
    requires forall e :: e in h ==> e.op != id
    requires j < |h + OpEvents(id, ws)| && (h + OpEvents(id, ws))[j] == G.Ended(id)
    ensures j == |h + OpEvents(id, ws)| - 1
  {
    hide Wrotes;
  }

  lemma WholePrefix(h: seq<G.Event>, c: nat, p: nat)
    requires G.Whole(h, c) && c <= p <= |h|
    ensures G.Whole(h[..p], c)
  {
    assert h[..p][..c] == h[..c];
  }

  lemma {:induction false} Boundary(ids: seq<nat>, txs: seq<seq<L.Write>>, h: seq<G.Event>, c: nat) returns (k: nat)
    requires |ids| == |txs| && L.Distinct(ids) && h <= Script(ids, txs) && G.Whole(h, c)
    ensures k <= |ids| && h[..c] == Script(ids[..k], txs[..k])
    decreases |ids|
  {
    if ids == [] {
      return 0;
    }
    var n := |ids| - 1;
    var p := Script(ids[..n], txs[..n]);
    if c <= |p| {
      var q := if |h| < |p| then |h| else |p|;
      WholePrefix(h, c, q);
      k := Boundary(ids[..n], txs[..n], h[..q], c);
      assert ids[..n][..k] == ids[..k] && txs[..n][..k] == txs[..k] && h[..q][..c] == h[..c];
    } else {
      LastOp(ids, txs, h, c);
      assert ids[..n + 1] == ids && txs[..n + 1] == txs;
      k := n + 1;
    }
  }

  lemma LastOp(ids: seq<nat>, txs: seq<seq<L.Write>>, h: seq<G.Event>, c: nat)
    requires |ids| == |txs| > 0 && L.Distinct(ids) && h <= Script(ids, txs) && G.Whole(h, c)
    requires c > |Script(ids[..|ids| - 1], txs[..|ids| - 1])|
    ensures h[..c] == Script(ids, txs)
  {
    var n := |ids| - 1;
    var p, id := Script(ids[..n], txs[..n]), ids[n];
    forall e | e in p
      ensures e.op != id
    {
      ScriptOps(ids[..n], txs[..n], e);
    }
    var s := p + OpEvents(id, txs[n]);
    assert s == Script(ids, txs);
    assert h[c - 1] == s[c - 1] && s[c - 1].op == id;
    assert G.Ended(id) in h[..c];
    var j :| 0 <= j < c && h[j] == G.Ended(id);
    LastEvent(p, id, txs[n], j);
  }

  lemma {:induction false} ScriptEnds(ids: seq<nat>, txs: seq<seq<L.Write>>, j: nat)
    requires |ids| == |txs| && j < |ids|
    ensures G.Ended(ids[j]) in Script(ids, txs)
  {
    var n := |ids| - 1;
    if j < n {
      ScriptEnds(ids[..n], txs[..n], j);
    } else {
      var o := OpEvents(ids[n], txs[n]);
      assert o[|o| - 1] == G.Ended(ids[n]);
    }
  }

  /** The operations before the boundary have ended, and no other has before it. */
  lemma EndedOps(ids: seq<nat>, txs: seq<seq<L.Write>>, h: seq<G.Event>, c: nat, q: nat)
    requires |ids| == |txs| && L.Distinct(ids) && q <= |ids| && c <= |h| && h[..c] == Script(ids[..q], txs[..q])
    ensures forall j :: 0 <= j < q ==> G.Ended(ids[j]) in h
    ensures forall j :: 0 <= j < |ids| && G.Ended(ids[j]) in h[..c] ==> j < q
  {
    forall j | 0 <= j < q
      ensures G.Ended(ids[j]) in h
    {
      ScriptEnds(ids[..q], txs[..q], j);
      assert G.Ended(ids[j]) in h[..c];
    }
    forall j | 0 <= j < |ids| && G.Ended(ids[j]) in h[..c]
      ensures j < q
    {
      ScriptOps(ids[..q], txs[..q], G.Ended(ids[j]));
    }
  }

  // ----- the disk as a file system sees it -----

  predicate Mountable(sb: Super, d: L.Disk) {
    SuperOk(sb) && |d| == sb.size && forall b :: sb.inodestart <= b < sb.size ==> |d[b]| == BSIZE
  }

  /** What lies before the inode blocks is not part of the image. */
  function HomeBlocks(sb: Super, d: L.Disk): (r: seq<Block>)
    requires Mountable(sb, d)
    ensures Sized(sb, r) && forall b :: sb.inodestart <= b < sb.size ==> r[b] == d[b]
  {
    seq(|d|, b requires 0 <= b < |d| => HomeBlock(sb, d, b))
  }

  function HomeBlock(sb: Super, d: L.Disk, b: nat): (r: Block)
    requires Mountable(sb, d) && b < |d|
    ensures |r| == BSIZE
  {
    if b < sb.inodestart then Zero() else d[b]
  }

  /** The image on a disk. */
  function Mount(sb: Super, d: L.Disk): Image
    requires Mountable(sb, d)
  {
    var blk := HomeBlocks(sb, d);
    Image(blk, seq(sb.ninodes, i requires 0 <= i < sb.ninodes => DiskInode(sb, blk, i)))
  }

  /** A disk with the home blocks of a sound image mounts as that image. */
  lemma MountHolds(l: L.Layout, sb: Super, m0: Image, ip: nat, off: nat, bytes: seq<int>, n: Image, own: Owner, d: L.Disk)
    requires ip < |m0.ino| && Holds(sb, m0, ip, off, bytes, n, own)
    requires l.start + l.size <= sb.inodestart && L.SameHome(l, d, n.blk)
    ensures Mountable(sb, d) && Holds(sb, m0, ip, off, bytes, Mount(sb, d), own)
  {
    hide Owns, NoHoles, Content, Spliced, GetInode;
    assert forall b :: sb.inodestart <= b < sb.size ==> d[b] == n.blk[b];
    var m := Mount(sb, d);
    assert forall b :: sb.inodestart <= b < sb.size ==> m.blk[b] == n.blk[b];
    forall i | 0 <= i < sb.ninodes
      ensures m.ino[i] == n.ino[i]
    {
      assert sb.inodestart <= IBlock(sb, i) < sb.bmapstart;
      assert DiskInode(sb, n.blk, i) == n.ino[i];
    }
    assert m.ino == n.ino;
    HeadContent(sb, n, own, m);
  }

  // ----- the theorem -----

  lemma HeadNone(src: seq<int>)
    ensures Head(src, 0) == src[..0]
  {
  }

  lemma InPrefix(h: seq<G.Event>, a: nat, b: nat, e: G.Event)
    requires a <= b <= |h| && e in h[..a]
    ensures e in h[..b]
  {
  }

  lemma ScriptSnoc(ids: seq<nat>, txs: seq<seq<L.Write>>, k: nat)
    requires |ids| == |txs| && k < |ids|
    ensures Script(ids[..k + 1], txs[..k + 1]) == Script(ids[..k], txs[..k]) + OpEvents(ids[k], txs[k])
  {
    assert ids[..k + 1][..k] == ids[..k] && txs[..k + 1][..k] == txs[..k];
  }

  lemma ScriptNone(base: L.Disk, ids: seq<nat>, txs: seq<seq<L.Write>>)
    requires |ids| == |txs|
    ensures G.Replay(base, Script(ids[..0], txs[..0])) == base
  {
  }

  /** The writes of operation j lead from the image before chunk j to the image after it. */
  ghost predicate Follows(m0: Image, log: seq<Step>, ws: seq<L.Write>, j: nat) {
    Before(m0, log, Min(j + 1, |log|)).blk == L.Apply(Before(m0, log, Min(j, |log|)).blk, ws)
  }

  lemma StepFollows(sb: Super, m0: Image, ip: nat, off: nat, src: seq<int>, log: seq<Step>, ws: seq<L.Write>, j: nat)
    requires ip < |m0.ino| && Steps(sb, m0, ip, off, src, log) && ws == if j < |log| then log[j].writes else []
    ensures Follows(m0, log, ws, j)
  {
    assert j < |log| ==> StepOk(sb, m0, ip, off, src, log, j);
  }

  lemma StepHolds(sb: Super, m0: Image, ip: nat, off: nat, src: seq<int>, log: seq<Step>, j: nat)
    requires ip < |m0.ino| && Steps(sb, m0, ip, off, src, log) && j < |log|
    ensures Holds(sb, m0, ip, off, Head(src, j + 1), log[j].after, log[j].own)
  {
    assert StepOk(sb, m0, ip, off, src, log, j);
  }

  /** After its first k operations, the history shows the image after k chunks. */
  lemma {:induction false} ScriptDisk(l: L.Layout, base: L.Disk, m0: Image, log: seq<Step>,
                                      ids: seq<nat>, txs: seq<seq<L.Write>>, k: nat)
    requires |ids| == |txs| && k <= |ids| && L.SameHome(l, base, m0.blk)
    requires forall j :: 0 <= j < k ==> Follows(m0, log, txs[j], j)
    ensures L.SameHome(l, G.Replay(base, Script(ids[..k], txs[..k])), Before(m0, log, Min(k, |log|)).blk)
    decreases k
  {
    hide G.Replay, OpEvents, Script, L.SameHome, L.Apply;
    if k == 0 {
      ScriptNone(base, ids, txs);
    } else {
      ScriptDisk(l, base, m0, log, ids, txs, k - 1);
      var p := Script(ids[..k - 1], txs[..k - 1]);
      ScriptSnoc(ids, txs, k - 1);
      ReplayOp(base, p, ids[k - 1], txs[k - 1]);
      HomeApply(l, G.Replay(base, p), Before(m0, log, Min(k - 1, |log|)).blk, txs[k - 1]);
      assert Follows(m0, log, txs[k - 1], k - 1);
    }
  }

  /**
  A crash at any point of filewrite: recovery brings up a consistent, hole-free image in which the
  file has got the first k chunks and nothing else, every other file is as it was, and every chunk
  whose commit had finished is among the k.  txs are the log_write calls of the operations, a chunk each;
  an operation past the recorded chunks was refused and wrote nothing, or never ended.
  */
  lemma CrashDuringFilewrite(l: L.Layout, sb: Super, base: L.Disk, init: G.State, acts: seq<G.Action>, boot: seq<G.Action>,
                             m0: Image, own0: Owner, ip: nat, off: nat, src: seq<int>, log: seq<Step>,
                             ids: seq<nat>, txs: seq<seq<L.Write>>)
    returns (k: nat, own: Owner)
    requires l.size >= LOGSIZE && G.Init(l, base, init) && G.Exec(l, init, acts).Some?
    requires G.Recovery(boot) && G.Exec(l, G.Reboot(G.Exec(l, init, acts).value), boot).Some?
    requires G.Exec(l, G.Reboot(G.Exec(l, init, acts).value), boot).value.phase.Running?
    requires Sound(sb, m0, own0) && l.start + l.size <= sb.inodestart && L.SameHome(l, base, m0.blk)
    requires ip < |m0.ino| && Steps(sb, m0, ip, off, src, log)
    requires |log| <= |ids| == |txs| && L.Distinct(ids) && G.Exec(l, init, acts).value.hist <= Script(ids, txs)
    requires forall j :: 0 <= j < |log| ==> txs[j] == log[j].writes
    requires forall j :: |log| <= j < |ids| ==> txs[j] == [] || G.Ended(ids[j]) !in G.Exec(l, init, acts).value.hist
    ensures k <= |log|
    ensures var s := G.Exec(l, init, acts).value;
            var t := G.Exec(l, G.Reboot(s), boot).value;
            && Mountable(sb, t.disk)
            && Holds(sb, m0, ip, off, Head(src, k), Mount(sb, t.disk), own)
            && s.durable <= |s.hist|
            && forall j :: 0 <= j < |log| && G.Ended(ids[j]) in s.hist[..s.durable] ==> j < k
  {
    hide Sound, Holds, Steps, Follows, Mountable, Mount, Head, Script, G.Whole, G.Exec, G.Replay, G.Enabled, G.Next, G.Init, G.Recovery;
    var s := G.Exec(l, init, acts).value;
    var t := G.Exec(l, G.Reboot(s), boot).value;
    var c := G.GroupCommitTheorem(l, base, init, acts, boot);
    var q := Boundary(ids, txs, s.hist, c);
    EndedOps(ids, txs, s.hist, c, q);
    k := Min(q, |log|);
    forall j | 0 <= j < q
      ensures Follows(m0, log, txs[j], j)
    {
      StepFollows(sb, m0, ip, off, src, log, txs[j], j);
    }
    ScriptDisk(l, base, m0, log, ids, txs, q);
    own := if k == 0 then own0 else log[k - 1].own;
    if k == 0 {
      WritingStart(sb, m0, own0, ip, off, src);
      HeadNone(src);
    } else {
      StepHolds(sb, m0, ip, off, src, log, k - 1);
    }
    MountHolds(l, sb, m0, ip, off, Head(src, k), Before(m0, log, k), own, t.disk);
    forall j | 0 <= j < |log| && G.Ended(ids[j]) in s.hist[..s.durable]
      ensures j < k
    {
      InPrefix(s.hist, s.durable, c, G.Ended(ids[j]));
    }
  }

  // ----- such runs exist: a log of LOGSIZE blocks takes every chunk -----

  predicate Idle(s: G.State) {
    s.phase.Running? && s.active == [] && s.lh == [] && s.durable == |s.hist|
  }

  /** Inside operation id, the first j writes logged; h is the history before it. */
  predicate Busy(s: G.State, h: seq<G.Event>, id: nat, ws: seq<L.Write>, j: nat)
    requires j <= |ws|
  {
    && s.phase.Running? && s.active == [G.Op(id, Addrs(ws[..j]), None)]
    && s.hist == h + [G.Began(id)] + Wrotes(id, ws[..j])
    && |s.lh| <= |Addrs(ws[..j])|
    && forall b :: b in Addrs(ws[..j]) ==> b in s.lh
  }

  /** Writes that one operation may make: home blocks, at most MAXOPBLOCKS of them. */
  predicate Modest(l: L.Layout, size: nat, ws: seq<L.Write>) {
    && |Addrs(ws)| <= MAXOPBLOCKS
    && forall w :: w in ws ==> w.addr < size && !L.InLog(l, w.addr)
  }

  lemma {:induction false} AddrsPrefix(ws: seq<L.Write>, j: nat)
    requires j <= |ws|
    ensures Addrs(ws[..j]) <= Addrs(ws) && |Addrs(ws[..j])| <= |Addrs(ws)|
  {
    if j == |ws| {
      assert ws[..j] == ws;
    } else {
      var n := |ws| - 1;
      AddrsPrefix(ws[..n], j);
      assert ws[..n][..j] == ws[..j];
      SubsetSize(Addrs(ws[..j]), Addrs(ws));
    }
  }

  lemma SubsetSize(a: set<int>, b: set<int>)
    requires a <= b
    ensures |a| <= |b|
  {
    assert b == a + (b - a);
  }

  lemma AddrsStep(id: nat, ws: seq<L.Write>, j: nat)
    requires j < |ws|
    ensures Addrs(ws[..j + 1]) == Addrs(ws[..j]) + {ws[j].addr}
    ensures Wrotes(id, ws[..j + 1]) == Wrotes(id, ws[..j]) + [G.Wrote(id, ws[j].addr, ws[j].data)]
  {
    assert ws[..j + 1][..j] == ws[..j];
  }

  /** One log_write. */
  lemma WriteRuns(l: L.Layout, s: G.State, h: seq<G.Event>, id: nat, ws: seq<L.Write>, j: nat) returns (a: G.Action)
    requires l.size >= LOGSIZE && j < |ws| && Modest(l, |s.disk|, ws) && Busy(s, h, id, ws, j)
    ensures G.Enabled(l, s, a) && G.Enabled(l, G.Next(l, s, a), G.LogAppend(0))
    ensures var t := G.Next(l, G.Next(l, s, a), G.LogAppend(0));
            |t.disk| == |s.disk| && Busy(t, h, id, ws, j + 1)
  {
    hide Addrs, Wrotes;
    var b := ws[j].addr;
    a := G.LogTest(0, b, ws[j].data);
    AddrsStep(id, ws, j);
    AddrsPrefix(ws, j);
    AddrsPrefix(ws, j + 1);
    var u := G.Next(l, s, a);
    assert u.active == [G.Op(id, Addrs(ws[..j]), Some((b, ws[j].data)))];
    var t := G.Append(u, 0);
    assert t.active == [G.Op(id, Addrs(ws[..j + 1]), None)];
    assert t.hist == s.hist + [G.Wrote(id, b, ws[j].data)];
    SeqAssoc(h + [G.Began(id)], Wrotes(id, ws[..j]), [G.Wrote(id, b, ws[j].data)]);
    SubsetSize(Addrs(ws[..j]), Addrs(ws[..j + 1]));
    if b !in s.lh {
      assert b !in Addrs(ws[..j]);
      OneMore(Addrs(ws[..j]), b);
    }
    assert t.hist == h + [G.Began(id)] + Wrotes(id, ws[..j + 1]);
    assert |t.lh| <= |Addrs(ws[..j + 1])|;
    assert forall x :: x in s.lh ==> x in t.lh;
    assert b in t.lh;
  }

  lemma SeqAssoc<T>(a: seq<T>, b: seq<T>, c: seq<T>)
    ensures (a + b) + c == a + (b + c)
  {
  }

  lemma OneMore(s: set<nat>, b: nat)
    requires b !in s
    ensures |s + {b}| == |s| + 1
  {
  }

  /** All the log_write calls of an operation. */
  lemma {:induction false} WritesRun(l: L.Layout, init: G.State, acts: seq<G.Action>, h: seq<G.Event>, id: nat, ws: seq<L.Write>, j: nat)
    returns (more: seq<G.Action>)
    requires l.size >= LOGSIZE && j <= |ws| && G.Exec(l, init, acts).Some?
    requires var s := G.Exec(l, init, acts).value; Modest(l, |s.disk|, ws) && Busy(s, h, id, ws, j)
    ensures G.Exec(l, init, more).Some?
    ensures var s, t := G.Exec(l, init, acts).value, G.Exec(l, init, more).value;
            |t.disk| == |s.disk| && Busy(t, h, id, ws, |ws|)
    decreases |ws| - j
  {
    hide G.Exec, G.Enabled, G.Next, Busy, Modest;
    if j == |ws| {
      return acts;
    }
    var s := G.Exec(l, init, acts).value;
    var a := WriteRuns(l, s, h, id, ws, j);
    G.ExecSnoc(l, init, acts, a);
    G.ExecSnoc(l, init, acts + [a], G.LogAppend(0));
    more := WritesRun(l, init, acts + [a] + [G.LogAppend(0)], h, id, ws, j + 1);
  }

  /** A commit runs to its end. */
  lemma {:induction false} CommitRuns(l: L.Layout, base: L.Disk, init: G.State, acts: seq<G.Action>, todo: nat)
    returns (more: seq<G.Action>)
    requires l.size >= LOGSIZE && G.Init(l, base, init) && G.Exec(l, init, acts).Some?
    requires var s := G.Exec(l, init, acts).value;
             G.CanCommit(l, s) && s.phase.k <= |G.Pending(l, s)| && todo == |G.Pending(l, s)| - s.phase.k && s.active == []
    ensures G.Exec(l, init, more).Some?
    ensures var s, t := G.Exec(l, init, acts).value, G.Exec(l, init, more).value;
            Idle(t) && t.hist == s.hist && |t.disk| == |s.disk|
    decreases todo
  {
    hide G.Exec, G.Init;
    var s := G.Exec(l, init, acts).value;
    if todo == 0 {
      G.ExecSnoc(l, init, acts, G.CommitDone);
      more := acts + [G.CommitDone];
    } else {
      G.ExecSnoc(l, init, acts, G.CommitWrite);
      more := CommitRuns(l, base, init, acts + [G.CommitWrite], todo - 1);
    }
  }

  /** A whole operation, from begin_op to the end of its commit. */
  lemma OpRuns(l: L.Layout, base: L.Disk, init: G.State, acts: seq<G.Action>, id: nat, ws: seq<L.Write>)
    returns (more: seq<G.Action>)
    requires l.size >= LOGSIZE && G.Init(l, base, init) && G.Exec(l, init, acts).Some?
    requires var s := G.Exec(l, init, acts).value;
             Idle(s) && Modest(l, |s.disk|, ws) && forall e :: e in s.hist ==> e.op != id
    ensures G.Exec(l, init, more).Some?
    ensures var s, t := G.Exec(l, init, acts).value, G.Exec(l, init, more).value;
            Idle(t) && t.hist == s.hist + OpEvents(id, ws) && |t.disk| == |s.disk|
  {
    hide G.Exec, G.Init, G.Inv, Wrotes;
    var s := G.Exec(l, init, acts).value;
    BeginRuns(l, s, id, ws);
    G.ExecSnoc(l, init, acts, G.BeginOp(id));
    more := WritesRun(l, init, acts + [G.BeginOp(id)], s.hist, id, ws, 0);
    var t := G.Exec(l, init, more).value;
    G.ExecSnoc(l, init, more, G.EndOp(0));
    assert ws[..|ws|] == ws;
    more := more + [G.EndOp(0)];
    var u := G.Exec(l, init, more).value;
    assert u.hist == s.hist + OpEvents(id, ws);
    assert u.lh == t.lh && |t.lh| <= MAXOPBLOCKS;
    CommitStarts(l, base, init, more);
    more := CommitRuns(l, base, init, more, |G.Pending(l, u)|);
  }

  lemma BeginRuns(l: L.Layout, s: G.State, id: nat, ws: seq<L.Write>)
    requires Idle(s) && forall e :: e in s.hist ==> e.op != id
    ensures G.Enabled(l, s, G.BeginOp(id))
    ensures var t := G.Next(l, s, G.BeginOp(id)); Busy(t, s.hist, id, ws, 0) && |t.disk| == |s.disk|
  {
  }

  lemma CommitStarts(l: L.Layout, base: L.Disk, init: G.State, acts: seq<G.Action>)
    requires l.size >= LOGSIZE && G.Init(l, base, init) && G.Exec(l, init, acts).Some?
    requires G.Exec(l, init, acts).value.phase.Committing? && !G.AllPinned(G.Exec(l, init, acts).value.lh)
    ensures var s := G.Exec(l, init, acts).value;
            G.CanCommit(l, s) && s.phase.k <= |G.Pending(l, s)| && s.active == []
  {
    hide G.Exec;
    G.InitInv(l, base, init);
    G.RunInv(l, base, init, acts);
  }

  /**
  A log of at least LOGSIZE blocks takes every such sequence of operations, and once the last commit is done
  all of them are durable.
  */
  lemma {:induction false} ScriptRuns(l: L.Layout, base: L.Disk, init: G.State, ids: seq<nat>, txs: seq<seq<L.Write>>)
    returns (acts: seq<G.Action>)
    requires l.size >= LOGSIZE && G.Init(l, base, init) && |ids| == |txs| && L.Distinct(ids)
    requires forall j :: 0 <= j < |txs| ==> Modest(l, |base|, txs[j])
    ensures G.Exec(l, init, acts).Some?
    ensures var s := G.Exec(l, init, acts).value; Idle(s) && s.hist == Script(ids, txs) && |s.disk| == |base|
    decreases |ids|
  {
    hide G.Exec, Modest, OpEvents;
    if ids == [] {
      acts := NoActions(l, base, init);
      return;
    }
    var n := |ids| - 1;
    acts := ScriptRuns(l, base, init, ids[..n], txs[..n]);
    forall e | e in Script(ids[..n], txs[..n])
      ensures e.op != ids[n]
    {
      ScriptOps(ids[..n], txs[..n], e);
    }
    acts := OpRuns(l, base, init, acts, ids[n], txs[n]);
  }

  lemma NoActions(l: L.Layout, base: L.Disk, init: G.State) returns (acts: seq<G.Action>)
    requires G.Init(l, base, init)
    ensures G.Exec(l, init, acts) == Some(init) && Idle(init) && init.hist == [] && init.disk == base
  {
    acts := [];
  }

  function Writes(log: seq<Step>): (txs: seq<seq<L.Write>>)
    ensures |txs| == |log| && forall j :: 0 <= j < |log| ==> txs[j] == log[j].writes
  {
    seq(|log|, j requires 0 <= j < |log| => log[j].writes)
  }

  lemma StepModest(l: L.Layout, sb: Super, m0: Image, ip: nat, off: nat, src: seq<int>, log: seq<Step>, j: nat)
    requires ip < |m0.ino| && Steps(sb, m0, ip, off, src, log) && j < |log| && l.start + l.size <= sb.inodestart
    ensures Modest(l, sb.size, log[j].writes)
  {
    assert StepOk(sb, m0, ip, off, src, log, j);
  }

  /**
  The chunks of filewrite run through the log to the end, and from then on every crash recovers all
  of what was written.
  */
  lemma FilewriteDurable(l: L.Layout, sb: Super, base: L.Disk, init: G.State, m0: Image, own0: Owner,
                         ip: nat, off: nat, src: seq<int>, log: seq<Step>, ids: seq<nat>)
    returns (acts: seq<G.Action>)
    requires l.size >= LOGSIZE && G.Init(l, base, init)
    requires Sound(sb, m0, own0) && l.start + l.size <= sb.inodestart && L.SameHome(l, base, m0.blk)
    requires ip < |m0.ino| && Steps(sb, m0, ip, off, src, log) && |ids| == |log| && L.Distinct(ids)
    ensures G.Exec(l, init, acts).Some? && G.Exec(l, init, acts).value.hist == Script(ids, Writes(log))
    ensures forall boot {:trigger G.Recovery(boot)} :: G.Recovery(boot) ==>
      var t := G.Exec(l, G.Reboot(G.Exec(l, init, acts).value), boot);
      t.Some? && t.value.phase.Running? ==>
        exists own :: Mountable(sb, t.value.disk) && Holds(sb, m0, ip, off, Head(src, |log|), Mount(sb, t.value.disk), own)
  {
    hide G.Exec, G.Init, G.Recovery, Modest, Steps, Holds, Sound, Mountable, Mount, Head, Script;
    var txs := Writes(log);
    SoundSize(sb, m0, own0);
    forall j | 0 <= j < |txs|
      ensures Modest(l, |base|, txs[j])
    {
      StepModest(l, sb, m0, ip, off, src, log, j);
    }
    acts := ScriptRuns(l, base, init, ids, txs);
    var s := G.Exec(l, init, acts).value;
    assert s.hist[..s.durable] == s.hist;
    forall boot | G.Recovery(boot) && G.Exec(l, G.Reboot(s), boot).Some? && G.Exec(l, G.Reboot(s), boot).value.phase.Running?
      ensures var t := G.Exec(l, G.Reboot(s), boot).value;
              exists own :: Mountable(sb, t.disk) && Holds(sb, m0, ip, off, Head(src, |log|), Mount(sb, t.disk), own)
    {
      var k, own := CrashDuringFilewrite(l, sb, base, init, acts, boot, m0, own0, ip, off, src, log, ids, txs);
      if k < |log| {
        ScriptEnds(ids, txs, k);
      }
    }
  }

  lemma SoundSize(sb: Super, m: Image, own: Owner)
    requires Sound(sb, m, own)
    ensures |m.blk| == sb.size
  {
  }
}
