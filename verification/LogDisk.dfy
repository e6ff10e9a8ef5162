/**
The redo log on disk (log.c): the sequences of single-block writes that commit
and recovery issue, and what survives when either is cut short.

A block is 128 32-bit words, so that the header block can be read as a count
followed by that many home block numbers.
*/
module LogDisk {
  import opened Params

  const WORDS := 128

  type Block = seq<int>
  type Disk = seq<Block>

  /** One atomic block write. */
  datatype Write = Write(addr: nat, data: Block)

  /** log.start and log.size: the header block, then size - 1 block slots. */
  datatype Layout = Layout(start: nat, size: nat)

  predicate InLog(l: Layout, b: int) {
    l.start <= b < l.start + l.size
  }

  predicate Distinct<T(==)>(s: seq<T>) {
    forall i, j :: 0 <= i < j < |s| ==> s[i] != s[j]
  }

  /** A list of home block numbers that the log can hold. */
  predicate Loggable(l: Layout, disksize: nat, lh: seq<int>) {
    && |lh| <= LOGSIZE
    && |lh| < l.size
    && Distinct(lh)
    && forall i :: 0 <= i < |lh| ==> 0 <= lh[i] < disksize && !InLog(l, lh[i])
  }

  /** The block numbers a header block lists. */
  function Header(b: Block): seq<int>
    requires |b| == WORDS && 0 <= b[0] <= LOGSIZE
  {
    b[1..1 + b[0]]
  }

  predicate WellFormed(l: Layout, d: Disk) {
    && 0 < l.size
    && l.start + l.size <= |d|
    && |d[l.start]| == WORDS && 0 <= d[l.start][0] <= LOGSIZE
    && Loggable(l, |d|, Header(d[l.start]))
  }

  predicate LogEmpty(l: Layout, d: Disk) {
    WellFormed(l, d) && d[l.start][0] == 0
  }

  predicate SameHome(l: Layout, d: Disk, e: Disk) {
    |d| == |e| && forall b :: 0 <= b < |d| && !InLog(l, b) ==> d[b] == e[b]
  }

  // ----- write sequences -----

  function ApplyOne(d: Disk, w: Write): (r: Disk)
    ensures |r| == |d|
  {
    if w.addr < |d| then d[w.addr := w.data] else d
  }

  function Apply(d: Disk, ws: seq<Write>): (r: Disk)
    ensures |r| == |d|
  {
    if ws == [] then d else ApplyOne(Apply(d, ws[..|ws| - 1]), ws[|ws| - 1])
  }

  lemma ApplySnoc(d: Disk, ws: seq<Write>, k: nat)
    requires k < |ws|
    ensures Apply(d, ws[..k + 1]) == ApplyOne(Apply(d, ws[..k]), ws[k])
  {
    assert ws[..k + 1][..k] == ws[..k];
  }

  lemma {:induction false} ApplyConcat(d: Disk, a: seq<Write>, b: seq<Write>)
    ensures Apply(d, a + b) == Apply(Apply(d, a), b)
  {
    if b == [] {
      assert a + b == a;
    } else {
      var n := |b| - 1;
      assert (a + b)[..|a + b| - 1] == a + b[..n];
      ApplyConcat(d, a, b[..n]);
    }
  }

  lemma {:induction false} ApplyMiss(d: Disk, ws: seq<Write>, b: nat)
    requires b < |d|
    requires forall i :: 0 <= i < |ws| ==> ws[i].addr != b
    ensures Apply(d, ws)[b] == d[b]
  {
    if ws != [] {
      ApplyMiss(d, ws[..|ws| - 1], b);
    }
  }

  lemma {:induction false} ApplyHit(d: Disk, ws: seq<Write>, i: nat)
    requires i < |ws| && ws[i].addr < |d|
    requires forall j :: i < j < |ws| ==> ws[j].addr != ws[i].addr
    ensures Apply(d, ws)[ws[i].addr] == ws[i].data
  {
    if i < |ws| - 1 {
      ApplyHit(d, ws[..|ws| - 1], i);
    }
  }

  // ----- the writes of write_log, write_head, install_trans, commit and recovery -----

  /** Overwrite the count and the first |lh| entries; the rest of the block stays. */
  function PutHeader(b: Block, lh: seq<int>): (r: Block)
    requires |b| == WORDS && |lh| <= LOGSIZE
    ensures |r| == WORDS && r[0] == |lh| && Header(r) == lh
  {
    [|lh|] + lh + b[1 + |lh|..]
  }

  /** The slots follow the header, whether or not the log is long enough for them. */
  function LogWrites(l: Layout, lh: seq<int>, v: Disk): seq<Write>
    requires forall i :: 0 <= i < |lh| ==> 0 <= lh[i] < |v|
  {
    seq(|lh|, i requires 0 <= i < |lh| => Write(l.start + 1 + i, v[lh[i]]))
  }

  function InstallWrites(l: Layout, lh: seq<int>, d: Disk): (ws: seq<Write>)
    requires Loggable(l, |d|, lh) && l.start + l.size <= |d|
    ensures |ws| == |lh|
  {
    seq(|lh|, i requires 0 <= i < |lh| => Write(lh[i], d[l.start + 1 + i]))
  }

  /** commit() up to and including the header write: the slots, then the commit point. */
  function Prepare(l: Layout, d: Disk, v: Disk, lh: seq<int>): seq<Write>
    requires |v| == |d| && WellFormed(l, d) && Loggable(l, |d|, lh)
  {
    LogWrites(l, lh, v) + [Write(l.start, PutHeader(d[l.start], lh))]
  }

  /** commit() after the commit point: install, then erase the header. */
  function Finish(l: Layout, d: Disk, v: Disk, lh: seq<int>): seq<Write>
    requires |v| == |d| && WellFormed(l, d) && Loggable(l, |d|, lh)
  {
    InstallWrites(l, lh, Apply(d, LogWrites(l, lh, v)))
    + [Write(l.start, PutHeader(PutHeader(d[l.start], lh), []))]
  }

  /** What commit() writes, in order, when the cache shows v over disk d. */
  function CommitWrites(l: Layout, d: Disk, v: Disk, lh: seq<int>): seq<Write>
    requires |v| == |d| && WellFormed(l, d) && Loggable(l, |d|, lh)
  {
    if lh == [] then [] else Prepare(l, d, v, lh) + Finish(l, d, v, lh)
  }

  /** What recover_from_log() writes when it boots from disk d. */
  function RecoverWrites(l: Layout, d: Disk): seq<Write>
    requires WellFormed(l, d)
  {
    InstallWrites(l, Header(d[l.start]), d) + [Write(l.start, PutHeader(d[l.start], []))]
  }

  /** The header block of d lists lh, and lh fits the log. */
  predicate Lists(l: Layout, d: Disk, lh: seq<int>) {
    WellFormed(l, d) && Header(d[l.start]) == lh
  }

  /** With lh listed, recovery run on d is bound to leave the home blocks as in t. */
  ghost predicate Bound(l: Layout, d: Disk, lh: seq<int>, t: Disk)
    requires l.start + l.size <= |d| && Loggable(l, |d|, lh)
  {
    && |t| == |d|
    && (forall i {:trigger lh[i]} :: 0 <= i < |lh| ==> t[lh[i]] == d[l.start + 1 + i])
    && (forall b :: 0 <= b < |d| && !InLog(l, b) && b !in lh ==> t[b] == d[b])
  }

  ghost predicate Recovers(l: Layout, d: Disk, t: Disk) {
    WellFormed(l, d) && Bound(l, d, Header(d[l.start]), t)
  }

  lemma RecoversSameHome(l: Layout, d: Disk, t: Disk, u: Disk)
    requires Recovers(l, d, t) && SameHome(l, t, u)
    ensures Recovers(l, d, u)
  {
  }

  // ----- cutting recovery short -----

  lemma InstallMiss(l: Layout, d: Disk, lh: seq<int>, k: nat, b: nat)
    requires Loggable(l, |d|, lh) && l.start + l.size <= |d| && k <= |lh| && b < |d| && b !in lh[..k]
    ensures Apply(d, InstallWrites(l, lh, d)[..k])[b] == d[b]
  {
    var ws := InstallWrites(l, lh, d)[..k];
    forall i | 0 <= i < |ws|
      ensures ws[i].addr != b
    {
      assert ws[i].addr == lh[..k][i];
    }
    ApplyMiss(d, ws, b);
  }

  lemma InstallHit(l: Layout, d: Disk, lh: seq<int>, k: nat, i: nat)
    requires Loggable(l, |d|, lh) && l.start + l.size <= |d| && i < k <= |lh|
    ensures Apply(d, InstallWrites(l, lh, d)[..k])[lh[i]] == d[l.start + 1 + i]
  {
    var ws := InstallWrites(l, lh, d)[..k];
    assert ws[i] == Write(lh[i], d[l.start + 1 + i]);
    forall j | i < j < |ws|
      ensures ws[j].addr != ws[i].addr
    {
      assert ws[j].addr == lh[j] && lh[j] != lh[i];
    }
    ApplyHit(d, ws, i);
  }

  /** After k installs, the first k home blocks hold their slots and nothing else moved. */
  lemma InstallEffect(l: Layout, d: Disk, lh: seq<int>, k: nat)
    requires Loggable(l, |d|, lh) && l.start + l.size <= |d| && k <= |lh|
    ensures var e := Apply(d, InstallWrites(l, lh, d)[..k]);
            && (forall i :: 0 <= i < k ==> e[lh[i]] == d[l.start + 1 + i])
            && (forall b :: 0 <= b < |d| && b !in lh[..k] ==> e[b] == d[b])
  {
    var e := Apply(d, InstallWrites(l, lh, d)[..k]);
    forall b | 0 <= b < |d| && b !in lh[..k]
      ensures e[b] == d[b]
    {
      InstallMiss(l, d, lh, k, b);
    }
    forall i | 0 <= i < k
      ensures e[lh[i]] == d[l.start + 1 + i]
    {
      InstallHit(l, d, lh, k, i);
    }
  }

  /** Stopping while the installs are under way keeps header, slots and target. */
  lemma InstallCut(l: Layout, d: Disk, lh: seq<int>, t: Disk, k: nat)
    requires Loggable(l, |d|, lh) && 0 < l.size && l.start + l.size <= |d| && Bound(l, d, lh, t)
    requires k <= |lh|
    ensures var e := Apply(d, InstallWrites(l, lh, d)[..k]);
            Bound(l, e, lh, t) && e[l.start] == d[l.start]
            && (k == |lh| ==> SameHome(l, e, t))
  {
    InstallEffect(l, d, lh, k);
    var e := Apply(d, InstallWrites(l, lh, d)[..k]);
    forall b | 0 <= b < |d| && InLog(l, b)
      ensures e[b] == d[b]
    {
      assert b !in lh[..k];
    }
    assert k == |lh| ==> lh[..k] == lh;
  }

  /** A crash after any number of recovery's writes changes nothing about the outcome. */
  lemma RecoverCut(l: Layout, d: Disk, t: Disk, k: nat)
    requires Recovers(l, d, t)
    requires k <= |RecoverWrites(l, d)|
    ensures var e := Apply(d, RecoverWrites(l, d)[..k]);
            Recovers(l, e, t)
            && (k == |RecoverWrites(l, d)| ==> LogEmpty(l, e) && SameHome(l, e, t))
  {
    hide Apply, InstallWrites, PutHeader;
    var ws := RecoverWrites(l, d);
    var lh := Header(d[l.start]);
    var n := |lh|;
    var inst := InstallWrites(l, lh, d);
    if k <= n {
      assert ws[..k] == inst[..k];
      InstallCut(l, d, lh, t, k);
    } else {
      assert ws[..n] == inst[..n];
      InstallCut(l, d, lh, t, n);
      ApplySnoc(d, ws, n);
      EraseHead(l, Apply(d, ws[..n]), t);
    }
  }

  /** Clearing the header of a fully installed disk commits nothing new. */
  lemma EraseHead(l: Layout, d: Disk, t: Disk)
    requires WellFormed(l, d) && SameHome(l, d, t)
    ensures var e := ApplyOne(d, Write(l.start, PutHeader(d[l.start], [])));
            LogEmpty(l, e) && SameHome(l, e, t) && Recovers(l, e, t)
  {
  }

  // ----- cutting commit short -----

  /** The cache differs from the disk at most on the logged home blocks. */
  predicate OnlyLogged(l: Layout, d: Disk, v: Disk, lh: seq<int>) {
    |d| == |v| && forall b :: 0 <= b < |d| && !InLog(l, b) && b !in lh ==> v[b] == d[b]
  }

  /** While write_log runs, the header still says "nothing logged". */
  lemma LogCut(l: Layout, d: Disk, v: Disk, lh: seq<int>, k: nat)
    requires 0 < l.size && l.start + l.size <= |d| == |v| && Loggable(l, |d|, lh) && k <= |lh|
    ensures var e := Apply(d, LogWrites(l, lh, v)[..k]);
            e[l.start] == d[l.start] && SameHome(l, e, d)
            && forall i {:trigger lh[i]} :: 0 <= i < k ==> e[l.start + 1 + i] == v[lh[i]]
  {
    hide Apply;
    var ws := LogWrites(l, lh, v)[..k];
    var e := Apply(d, ws);
    forall b | 0 <= b < |d| && (b == l.start || !InLog(l, b))
      ensures e[b] == d[b]
    {
      ApplyMiss(d, ws, b);
    }
    forall i | 0 <= i < k
      ensures e[l.start + 1 + i] == v[lh[i]]
    {
      assert ws[i] == Write(l.start + 1 + i, v[lh[i]]);
      ApplyHit(d, ws, i);
    }
  }

  /** The header write is the commit point: from then on recovery yields v. */
  lemma HeadCut(l: Layout, d: Disk, f: Disk, v: Disk, lh: seq<int>)
    requires LogEmpty(l, d) && OnlyLogged(l, d, v, lh) && Loggable(l, |d|, lh)
    requires |f| == |d| && f[l.start] == d[l.start] && SameHome(l, f, d)
    requires forall i {:trigger lh[i]} :: 0 <= i < |lh| ==> f[l.start + 1 + i] == v[lh[i]]
    ensures var e := ApplyOne(f, Write(l.start, PutHeader(d[l.start], lh)));
            Lists(l, e, lh) && Recovers(l, e, v)
            && InstallWrites(l, lh, f) == InstallWrites(l, lh, e)
  {
  }

  lemma CutConcat<T>(a: seq<T>, b: seq<T>, k: nat)
    requires k <= |a| + |b|
    ensures (a + b)[..k] == if k <= |a| then a[..k] else a + b[..k - |a|]
  {
  }

  /** The commit point: after the slots and the header are written, what is left is a recovery. */
  lemma CommitPoint(l: Layout, d: Disk, v: Disk, lh: seq<int>)
    requires LogEmpty(l, d) && OnlyLogged(l, d, v, lh) && Loggable(l, |d|, lh)
    ensures var e := Apply(d, Prepare(l, d, v, lh));
            Lists(l, e, lh) && Recovers(l, e, v) && RecoverWrites(l, e) == Finish(l, d, v, lh)
  {
    var logged := LogWrites(l, lh, v);
    var f := Apply(d, logged);
    assert logged[..|lh|] == logged;
    LogCut(l, d, v, lh, |lh|);
    HeadCut(l, d, f, v, lh);
    var p := Prepare(l, d, v, lh);
    assert p[..|p| - 1] == logged;
  }

  lemma CommitCutOld(l: Layout, d: Disk, v: Disk, lh: seq<int>, k: nat)
    requires LogEmpty(l, d) && |d| == |v| && Loggable(l, |d|, lh) && k <= |lh|
    ensures Recovers(l, Apply(d, Prepare(l, d, v, lh)[..k]), d)
  {
    CutConcat(LogWrites(l, lh, v), [Write(l.start, PutHeader(d[l.start], lh))], k);
    LogCut(l, d, v, lh, k);
  }

  lemma CommitCutNew(l: Layout, d: Disk, v: Disk, lh: seq<int>, m: nat)
    requires LogEmpty(l, d) && OnlyLogged(l, d, v, lh) && Loggable(l, |d|, lh) && m <= |lh| + 1
    ensures var e := Apply(d, Prepare(l, d, v, lh) + Finish(l, d, v, lh)[..m]);
            Recovers(l, e, v) && (m == |lh| + 1 ==> LogEmpty(l, e) && SameHome(l, e, v))
  {
    var p := Prepare(l, d, v, lh);
    CommitPoint(l, d, v, lh);
    ApplyConcat(d, p, Finish(l, d, v, lh)[..m]);
    RecoverCut(l, Apply(d, p), v, m);
  }

  /**
  A crash after any number of commit's writes leaves a disk whose recovery is
  all old before the header write and all new from it on.
  */
  lemma CommitCut(l: Layout, d: Disk, v: Disk, lh: seq<int>, k: nat)
    requires LogEmpty(l, d) && OnlyLogged(l, d, v, lh) && Loggable(l, |d|, lh)
    requires k <= |CommitWrites(l, d, v, lh)|
    ensures var e := Apply(d, CommitWrites(l, d, v, lh)[..k]);
            Recovers(l, e, if lh != [] && k <= |lh| then d else v)
            && (k == |CommitWrites(l, d, v, lh)| ==> LogEmpty(l, e) && SameHome(l, e, v))
  {
    if lh != [] {
      var p, r := Prepare(l, d, v, lh), Finish(l, d, v, lh);
      CutConcat(p, r, k);
      if k <= |lh| {
        CommitCutOld(l, d, v, lh, k);
      } else {
        assert (p + r)[..k] == p + r[..k - |p|];
        CommitCutNew(l, d, v, lh, k - |p|);
      }
    }
  }

  // ----- crash atomicity -----

  /** Recovery interrupted once per element of cuts, then run to the end. */
  ghost function Reboots(l: Layout, d: Disk, cuts: seq<nat>): (r: Disk)
    requires WellFormed(l, d)
    ensures WellFormed(l, r)
    decreases |cuts|
  {
    var t := RecoveredImage(l, d);
    if cuts == [] then
      RecoverCut(l, d, t, |RecoverWrites(l, d)|);
      assert RecoverWrites(l, d)[..|RecoverWrites(l, d)|] == RecoverWrites(l, d);
      Apply(d, RecoverWrites(l, d))
    else
      var k := if cuts[0] <= |RecoverWrites(l, d)| then cuts[0] else |RecoverWrites(l, d)|;
      RecoverCut(l, d, t, k);
      Reboots(l, Apply(d, RecoverWrites(l, d)[..k]), cuts[1..])
  }

  /** Some image that recovery of d leads to. */
  ghost function RecoveredImage(l: Layout, d: Disk): (t: Disk)
    requires WellFormed(l, d)
    ensures Recovers(l, d, t)
  {
    var lh := Header(d[l.start]);
    var t := seq(|d|, b requires 0 <= b < |d| =>
      if exists i :: 0 <= i < |lh| && lh[i] == b
      then var i :| 0 <= i < |lh| && lh[i] == b; d[l.start + 1 + i]
      else d[b]);
    assert forall i :: 0 <= i < |lh| ==> t[lh[i]] == d[l.start + 1 + i];
    t
  }

  /** However often recovery itself crashes, it ends in the bound image with an empty log. */
  lemma {:induction false} RebootsConverge(l: Layout, d: Disk, t: Disk, cuts: seq<nat>)
    requires Recovers(l, d, t)
    ensures LogEmpty(l, Reboots(l, d, cuts)) && SameHome(l, Reboots(l, d, cuts), t)
    decreases |cuts|
  {
    var ws := RecoverWrites(l, d);
    if cuts == [] {
      assert ws[..|ws|] == ws;
      RecoverCut(l, d, t, |ws|);
    } else {
      var k := if cuts[0] <= |ws| then cuts[0] else |ws|;
      RecoverCut(l, d, t, k);
      RebootsConverge(l, Apply(d, ws[..k]), t, cuts[1..]);
    }
  }

  /**
  Crash atomicity: cut commit after any k of its writes and crash any number of
  times inside recovery; the home blocks are all old or all new, and the log is empty.
  */
  lemma CrashAtomicity(l: Layout, d: Disk, v: Disk, lh: seq<int>, k: nat, cuts: seq<nat>)
    requires LogEmpty(l, d) && OnlyLogged(l, d, v, lh) && Loggable(l, |d|, lh)
    requires k <= |CommitWrites(l, d, v, lh)|
    ensures var cut := Apply(d, CommitWrites(l, d, v, lh)[..k]);
            WellFormed(l, cut)
            && var r := Reboots(l, cut, cuts);
            LogEmpty(l, r) && SameHome(l, r, if k <= |lh| && lh != [] then d else v)
  {
    CommitCut(l, d, v, lh, k);
    var cut := Apply(d, CommitWrites(l, d, v, lh)[..k]);
    RebootsConverge(l, cut, if lh != [] && k <= |lh| then d else v, cuts);
  }
}
