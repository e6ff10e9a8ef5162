/**
log.c in its own form: one object whose fields are updated in place, with the
loops of write_log, write_head, install_trans and read_head.  Each method that
reaches the disk is tied to the write sequence that LogDisk reasons about.
*/
module LogFile {
  import opened Params
  import opened LogDisk
  import opened GroupCommit
  import Cache = BufferCache

  /** Distinct home blocks, as many as the array in memory holds. */
  predicate Homes(l: Layout, disksize: nat, lh: seq<int>) {
    && |lh| <= LOGSIZE && Distinct(lh)
    && forall i :: 0 <= i < |lh| ==> 0 <= lh[i] < disksize && !InLog(l, lh[i])
  }

  /** Each logged block has pinned a buffer of its own. */
  lemma {:induction false} PinnedCount(lh: seq<int>, dirty: map<nat, Block>)
    requires Distinct(lh) && (forall b :: b in dirty ==> b in lh) && forall i :: 0 <= i < |lh| ==> lh[i] in dirty
    ensures |dirty| == |lh|
  {
    if lh == [] {
      assert dirty == map[];
    } else {
      var k := |lh| - 1;
      var rest := dirty - {lh[k]};
      PinnedCount(lh[..k], rest);
      assert dirty.Keys == rest.Keys + {lh[k]};
      assert |dirty| == |dirty.Keys| && |rest| == |rest.Keys|;
    }
  }

  function LoggedSet(lh: seq<nat>): set<nat> {
    set b | b in lh
  }

  lemma {:induction false} DistinctSize(lh: seq<nat>)
    requires Distinct(lh)
    ensures |LoggedSet(lh)| == |lh|
  {
    if lh == [] {
      assert LoggedSet(lh) == {};
    } else {
      var k := |lh| - 1;
      DistinctSize(lh[..k]);
      assert lh == lh[..k] + [lh[k]];
      assert LoggedSet(lh) == LoggedSet(lh[..k]) + {lh[k]};
    }
  }

  /** When the logged blocks are what is pinned, bread of the first slot has no buffer exactly if they fill the cache. */
  lemma SlotBread(l: Layout, disksize: nat, lh: seq<nat>, bufs: seq<Cache.Buf>)
    requires 2 <= l.size && Homes(l, disksize, lh)
    requires |bufs| == NBUF && Cache.Unique(bufs) && Cache.Pins(bufs, LoggedSet(lh))
    requires forall i :: 0 <= i < |bufs| ==> bufs[i].refcnt == 0
    ensures Cache.NoBuffer(bufs, 1, l.start + 1) <==> AllPinned(lh)
  {
    hide Cache.Unique, Cache.Pins, Cache.NoBuffer;
    DistinctSize(lh);
    assert InLog(l, l.start + 1);
    Cache.PinnedCacheFull(bufs, LoggedSet(lh), l.start + 1);
  }

  /** The disk while commit prepares, and the writes of the two stages. */
  lemma PrepareStages(l: Layout, d: Disk, v: Disk, lh: seq<int>)
    requires LogEmpty(l, d) && OnlyLogged(l, d, v, lh) && Loggable(l, |d|, lh)
    ensures var f := Apply(d, LogWrites(l, lh, v));
            var w := Write(l.start, PutHeader(d[l.start], lh));
            && WellFormed(l, f) && f[l.start] == d[l.start]
            && Prepare(l, d, v, lh) == LogWrites(l, lh, v) + [w]
            && Apply(d, Prepare(l, d, v, lh)) == ApplyOne(f, w)
            && Lists(l, ApplyOne(f, w), lh)
  {
    var logged := LogWrites(l, lh, v);
    assert logged[..|lh|] == logged;
    LogCut(l, d, v, lh, |lh|);
    ApplyPlusOne(d, logged, Write(l.start, PutHeader(d[l.start], lh)));
    CommitPoint(l, d, v, lh);
  }

  /** The disk while a committed log is installed and erased. */
  lemma FinishStages(l: Layout, d: Disk, lh: seq<int>)
    requires Lists(l, d, lh)
    ensures var inst := InstallWrites(l, lh, d);
            var g := Apply(d, inst);
            var w := Write(l.start, PutHeader(d[l.start], []));
            && WellFormed(l, g) && g[l.start] == d[l.start]
            && RecoverWrites(l, d) == inst + [w]
            && Apply(d, RecoverWrites(l, d)) == ApplyOne(g, w)
            && LogEmpty(l, ApplyOne(g, w))
  {
    var inst := InstallWrites(l, lh, d);
    InstallTurns(l, d, lh);
    ApplyPlusOne(d, inst, Write(l.start, PutHeader(d[l.start], [])));
  }

  lemma TakeSnoc<T>(s: seq<T>, k: nat)
    requires k < |s|
    ensures s[..k + 1] == s[..k] + [s[k]]
  {
  }

  lemma Assoc<T>(a: seq<T>, b: seq<T>, c: seq<T>)
    ensures a + b + c == a + (b + c)
  {
  }

  /** ws[..k], kept folded in the loops below. */
  ghost function First(ws: seq<Write>, k: nat): (r: seq<Write>)
    requires k <= |ws|
  {
    ws[..k]
  }

  /** Home blocks and log slots are different blocks. */
  lemma SlotNotHome(l: Layout, disksize: nat, lh: seq<int>, i: nat, k: nat)
    requires Loggable(l, disksize, lh) && i < |lh| && k <= |lh| && l.start + l.size <= disksize
    ensures InLog(l, l.start + 1 + i) && 0 <= l.start + 1 + i < disksize
    ensures l.start + 1 + i !in lh[..k]
    ensures 0 <= lh[i] < disksize && !InLog(l, lh[i])
  {
  }

  lemma LogWriteAt(l: Layout, lh: seq<int>, v: Disk, i: nat)
    requires Loggable(l, |v|, lh) && i < |lh|
    ensures |LogWrites(l, lh, v)| == |lh| && 0 <= lh[i] < |v|
    ensures LogWrites(l, lh, v)[i] == Write(l.start + 1 + i, v[lh[i]])
  {
  }

  lemma InstallWriteAt(l: Layout, lh: seq<int>, d: Disk, i: nat)
    requires Loggable(l, |d|, lh) && l.start + l.size <= |d| && i < |lh|
    ensures |InstallWrites(l, lh, d)| == |lh| && l.start + 1 + i < |d| && 0 <= lh[i]
    ensures InstallWrites(l, lh, d)[i] == Write(lh[i], d[l.start + 1 + i])
  {
  }

  /** What write_log writes at tail when the disk is e. */
  function SlotWrite(l: Layout, e: Disk, dirty: map<nat, Block>, lh: seq<int>, tail: nat): Write
    requires tail < |lh| && 0 <= lh[tail] < |e|
  {
    var home: nat := lh[tail];
    Write(l.start + 1 + tail, if home in dirty then dirty[home] else e[home])
  }

  /** One turn of write_log: the slot written and the block it comes from. */
  lemma LogTurn(l: Layout, d: Disk, dirty: map<nat, Block>, lh: seq<int>, tail: nat)
    requires 0 < l.size && l.start + l.size <= |d| && Loggable(l, |d|, lh) && tail < |lh|
    ensures var ws := LogWrites(l, lh, View(d, dirty));
            |ws| == |lh| && 0 <= lh[tail] < |d|
            && var e := Apply(d, First(ws, tail));
            var w := SlotWrite(l, e, dirty, lh, tail);
            && Apply(d, First(ws, tail + 1)) == ApplyOne(e, w)
            && First(ws, tail + 1) == First(ws, tail) + [w]
  {
    hide Apply, LogWrites;
    var v := View(d, dirty);
    SlotNotHome(l, |d|, lh, tail, tail);
    LogWriteAt(l, lh, v, tail);
    LogCut(l, d, v, lh, tail);
    var ws := LogWrites(l, lh, v);
    TakeSnoc(ws, tail);
    ApplySnoc(d, ws, tail);
  }

  lemma LogTurns(l: Layout, d: Disk, dirty: map<nat, Block>, lh: seq<int>)
    requires Homes(l, |d|, lh)
    ensures var ws := LogWrites(l, lh, View(d, dirty));
            |ws| == |lh| && First(ws, 0) == [] && First(ws, |lh|) == ws && Apply(d, []) == d
  {
  }

  /** One turn of install_trans. */
  lemma InstallTurn(l: Layout, d: Disk, lh: seq<int>, tail: nat)
    requires 0 < l.size && l.start + l.size <= |d| && Loggable(l, |d|, lh) && tail < |lh|
    ensures var ws := InstallWrites(l, lh, d);
            |ws| == |lh| && 0 <= lh[tail] < |d| && l.start + 1 + tail < |d|
            && var e := Apply(d, First(ws, tail));
            var w := Write(lh[tail], e[l.start + 1 + tail]);
            && Apply(d, First(ws, tail + 1)) == ApplyOne(e, w)
            && First(ws, tail + 1) == First(ws, tail) + [w]
  {
    SlotNotHome(l, |d|, lh, tail, tail);
    InstallWriteAt(l, lh, d, tail);
    InstallMiss(l, d, lh, tail, l.start + 1 + tail);
    hide Apply, Loggable, InstallWrites;
    var ws := InstallWrites(l, lh, d);
    TakeSnoc(ws, tail);
    ApplySnoc(d, ws, tail);
  }

  lemma InstallTurns(l: Layout, d: Disk, lh: seq<int>)
    requires 0 < l.size && l.start + l.size <= |d| && Loggable(l, |d|, lh)
    ensures var ws := InstallWrites(l, lh, d);
            |ws| == |lh| && First(ws, 0) == [] && First(ws, |lh|) == ws && Apply(d, []) == d
            && Apply(d, ws)[l.start] == d[l.start]
  {
    var ws := InstallWrites(l, lh, d);
    assert ws[..|lh|] == ws && lh[..|lh|] == lh;
    assert InLog(l, l.start);
    InstallMiss(l, d, lh, |lh|, l.start);
  }

  lemma ApplyNone(d: Disk)
    ensures Apply(d, []) == d
  {
  }

  lemma ApplyPlusOne(d: Disk, ws: seq<Write>, w: Write)
    ensures Apply(d, ws + [w]) == ApplyOne(Apply(d, ws), w)
  {
    assert (ws + [w])[..|ws|] == ws;
  }

  class Log {
    const l: Layout
    const block: array<int>
    var n: int
    var outstanding: int
    var committing: bool
    var disk: Disk
    var dirty: map<nat, Block>
    ghost var trace: seq<Write>

    ghost predicate Valid()
      reads this, block
    {
      && block.Length == LOGSIZE
      && 0 <= n <= LOGSIZE
      && WellFormed(l, disk)
      && Homes(l, |disk|, Lh())
      && (n < NBUF ==> n < l.size)
      && (forall b :: b in dirty ==> b in Lh())
      && (forall i :: 0 <= i < n ==> Lh()[i] in dirty)
    }

    /** initlog up to recover_from_log: the disk as it was left, with whatever the header lists. */
    constructor (l: Layout, disk: Disk)
      requires WellFormed(l, disk)
      ensures WellFormed(this.l, this.disk) && this.l == l && this.disk == disk && n == 0 && dirty == map[] && Lh() == []
      ensures Valid() && outstanding == 0 && !committing && trace == [] && fresh(block)
    {
      this.l := l;
      this.block := new int[LOGSIZE];
      this.n, this.outstanding, this.committing := 0, 0, false;
      this.disk, this.dirty, this.trace := disk, map[], [];
    }

    function Lh(): (r: seq<int>)
      reads this`n, block
      requires 0 <= n <= block.Length
      ensures |r| == n
    {
      block[..n]
    }

    /** bwrite: the block reaches the disk and its buffer is clean again. */
    method Bwrite(a: nat, data: Block)
      requires a < |disk|
      modifies this`disk, this`dirty, this`trace
      ensures disk == ApplyOne(old(disk), Write(a, data))
      ensures dirty == old(dirty) - {a}
      ensures a !in old(dirty) ==> dirty == old(dirty)
      ensures trace == old(trace) + [Write(a, data)]
    {
      disk := disk[a := data];
      dirty := dirty - {a};
      trace := trace + [Write(a, data)];
    }

    /** begin_op once past the lock: admitted, or left to sleep. */
    method BeginOp() returns (admitted: bool)
      requires Valid() && outstanding >= 0
      modifies this`outstanding
      ensures admitted <==> !committing && |Lh()| + (old(outstanding) + 1) * MAXOPBLOCKS <= LOGSIZE
      ensures outstanding == old(outstanding) + (if admitted then 1 else 0)
    {
      if committing {
        admitted := false;
      } else if n + (outstanding + 1) * MAXOPBLOCKS > LOGSIZE {
        admitted := false;
      } else {
        outstanding := outstanding + 1;
        admitted := true;
      }
    }

    /** The tests of log_write, made before the lock is taken. */
    method MayLog() returns (ok: bool)
      requires 0 <= n <= LOGSIZE == block.Length
      ensures ok <==> !TooBig(l, Lh()) && outstanding >= 1
    {
      if n >= LOGSIZE || n >= l.size - 1 {
        return false;
      }
      if outstanding < 1 {
        return false;
      }
      return true;
    }

    /**
    The rest of log_write, under the lock: records b once and pins it.  Another operation may have
    appended since the tests, so this relies on the reservation alone for room in the array, and the
    state stays sound exactly if the log on disk has a slot for every entry or every buffer is pinned.
    */
    method Record(b: nat, data: Block)
      requires Valid() && b < |disk| && !InLog(l, b) && (n < LOGSIZE || b in Lh())
      modifies this`n, this`dirty, block
      ensures 0 <= n <= LOGSIZE
      ensures Lh() == (if b in old(Lh()) then old(Lh()) else old(Lh()) + [b])
      ensures dirty == old(dirty)[b := data]
      ensures Valid() <==> (|Lh()| < NBUF ==> |Lh()| < l.size)
    {
      var i := 0;
      while i < n
        invariant 0 <= i <= n
        invariant b !in block[..i]
      {
        if block[i] == b {
          break;
        }
        i := i + 1;
      }
      ghost var lh := block[..n];
      assert i < n ==> lh[i] == b;
      assert i == n ==> b !in lh;
      block[i] := b;
      if i == n {
        n := n + 1;
        assert block[..n] == lh + [b];
      } else {
        assert block[..n] == lh;
      }
      dirty := dirty[b := data];
    }

    /** log_write when no other operation comes between: refuses before looking for absorption, otherwise records b. */
    method LogWrite(b: nat, data: Block) returns (panic: bool)
      requires Valid() && b < |disk| && !InLog(l, b)
      modifies this`n, this`dirty, block
      ensures Valid()
      ensures panic <==> TooBig(l, old(Lh())) || outstanding < 1
      ensures panic ==> Lh() == old(Lh()) && dirty == old(dirty)
      ensures !panic ==>
        && Lh() == (if b in old(Lh()) then old(Lh()) else old(Lh()) + [b])
        && dirty == old(dirty)[b := data]
    {
      var ok := MayLog();
      if ok {
        Record(b, data);
      }
      return !ok;
    }

    /** One turn of write_log: the cached block goes into its slot, if bread finds a buffer for the slot. */
    method WriteSlot(tail: nat) returns (panic: bool)
      requires tail < n <= LOGSIZE == block.Length && 0 < l.size && l.start + l.size <= |disk|
      requires |dirty| < NBUF ==> Loggable(l, |disk|, Lh())
      requires forall b :: b in dirty ==> !InLog(l, b)
      modifies this`disk, this`dirty, this`trace
      ensures panic <==> |dirty| >= NBUF
      ensures dirty == old(dirty)
      ensures panic ==> disk == old(disk) && trace == old(trace)
      ensures !panic ==>
        && 0 <= Lh()[tail] < |old(disk)|
        && var w := SlotWrite(l, old(disk), dirty, Lh(), tail);
        disk == ApplyOne(old(disk), w) && trace == old(trace) + [w]
    {
      if |dirty| >= NBUF {
        return true;
      }
      SlotNotHome(l, |disk|, Lh(), tail, 0);
      var home: nat := block[tail];
      var from := if home in dirty then dirty[home] else disk[home];
      Bwrite(l.start + 1 + tail, from);
      return false;
    }

    /** Copy the pinned blocks from the cache into the log slots; panics exactly when they fill the cache. */
    method WriteLog() returns (panic: bool)
      requires 0 <= n <= LOGSIZE == block.Length && WellFormed(l, disk) && Homes(l, |disk|, Lh())
      requires |dirty| < NBUF ==> Loggable(l, |disk|, Lh())
      requires forall b :: b in dirty ==> !InLog(l, b)
      modifies this`disk, this`dirty, this`trace
      ensures panic <==> n > 0 && |dirty| >= NBUF
      ensures dirty == old(dirty)
      ensures panic ==> disk == old(disk) && trace == old(trace)
      ensures !panic ==>
        var ws := LogWrites(l, Lh(), View(old(disk), old(dirty)));
        disk == Apply(old(disk), ws) && trace == old(trace) + ws
    {
      hide Lh, First, Apply, LogWrites, View, SlotWrite;
      ghost var d, lh := disk, Lh();
      ghost var ws := LogWrites(l, lh, View(disk, dirty));
      LogTurns(l, d, dirty, lh);
      var tail := 0;
      while tail < n
        invariant 0 <= tail <= n == |lh| && Lh() == lh
        invariant |disk| == |d| && dirty == old(dirty) && (tail > 0 ==> |dirty| < NBUF)
        invariant disk == Apply(d, First(ws, tail))
        invariant trace == old(trace) + First(ws, tail)
      {
        ghost var e := disk;
        panic := WriteSlot(tail);
        if panic {
          return true;
        }
        LogTurn(l, d, dirty, lh, tail);
        Assoc(old(trace), First(ws, tail), [SlotWrite(l, e, dirty, lh, tail)]);
        tail := tail + 1;
      }
      return false;
    }

    /** Write the in-memory header over the count and the first n entries on disk. */
    method WriteHead()
      requires 0 <= n <= LOGSIZE == block.Length && WellFormed(l, disk)
      requires forall b :: b in dirty ==> !InLog(l, b)
      modifies this`disk, this`dirty, this`trace
      ensures var w := Write(l.start, PutHeader(old(disk)[l.start], Lh()));
              disk == ApplyOne(old(disk), w) && trace == old(trace) + [w]
      ensures dirty == old(dirty)
    {
      ghost var b0 := disk[l.start];
      var hb := disk[l.start];
      hb := hb[0 := n];
      var i := 0;
      while i < n
        invariant 0 <= i <= n
        invariant hb == [n] + block[..i] + b0[1 + i..]
      {
        hb := hb[1 + i := block[i]];
        i := i + 1;
      }
      assert InLog(l, l.start);
      Bwrite(l.start, hb);
    }

    /** One turn of install_trans: a slot is copied to its home. */
    method InstallSlot(tail: nat)
      requires tail < n <= LOGSIZE == block.Length && 0 < l.size && l.start + l.size <= |disk|
      requires Loggable(l, |disk|, Lh())
      modifies this`disk, this`dirty, this`trace
      ensures 0 <= Lh()[tail] < |old(disk)| && l.start + 1 + tail < |old(disk)|
      ensures dirty == old(dirty) - {Lh()[tail]}
      ensures var w := Write(Lh()[tail], old(disk)[l.start + 1 + tail]);
              disk == ApplyOne(old(disk), w) && trace == old(trace) + [w]
    {
      var lbuf := disk[l.start + 1 + tail];
      Bwrite(block[tail], lbuf);
    }

    /** Copy every logged block from its slot to its home. */
    method InstallTrans()
      requires 0 <= n <= LOGSIZE == block.Length && WellFormed(l, disk)
      requires Loggable(l, |disk|, Lh())
      modifies this`disk, this`dirty, this`trace
      ensures var ws := InstallWrites(l, Lh(), old(disk));
              disk == Apply(old(disk), ws) && trace == old(trace) + ws
      ensures disk[l.start] == old(disk)[l.start]
      ensures forall b :: b in dirty <==> b in old(dirty) && b !in Lh()
      ensures forall b :: b in dirty ==> dirty[b] == old(dirty)[b]
    {
      hide Lh, First, Apply, InstallWrites, Loggable;
      ghost var d, lh := disk, Lh();
      ghost var ws := InstallWrites(l, lh, d);
      InstallTurns(l, d, lh);
      var tail := 0;
      while tail < n
        invariant 0 <= tail <= n == |lh| && Lh() == lh
        invariant |disk| == |d|
        invariant disk == Apply(d, First(ws, tail))
        invariant trace == old(trace) + First(ws, tail)
        invariant forall b :: b in dirty <==> b in old(dirty) && b !in lh[..tail]
        invariant forall b :: b in dirty ==> dirty[b] == old(dirty)[b]
      {
        InstallTurn(l, d, lh, tail);
        ghost var w := Write(lh[tail], disk[l.start + 1 + tail]);
        InstallSlot(tail);
        Assoc(old(trace), First(ws, tail), [w]);
        TakeSnoc(lh, tail);
        tail := tail + 1;
      }
      assert lh[..n] == lh;
    }

    /** log.lh.n = 0 and the header write that follows it. */
    method EraseHead()
      requires block.Length == LOGSIZE && WellFormed(l, disk) && dirty == map[]
      modifies this`disk, this`dirty, this`trace, this`n
      ensures n == 0 && Lh() == [] && dirty == map[]
      ensures var w := Write(l.start, PutHeader(old(disk)[l.start], []));
              disk == ApplyOne(old(disk), w) && trace == old(trace) + [w]
    {
      n := 0;
      assert Lh() == [];
      WriteHead();
    }

    /** commit() up to the commit point: the slots, then the header; panics exactly when the group fills the cache. */
    method CommitPrepare() returns (panic: bool)
      requires Valid() && LogEmpty(l, disk) && n > 0
      modifies this`disk, this`dirty, this`trace
      ensures panic <==> n >= NBUF
      ensures dirty == old(dirty)
      ensures panic ==> disk == old(disk) && trace == old(trace)
      ensures !panic ==>
        && Loggable(l, |old(disk)|, Lh())
        && Lists(l, disk, Lh())
        && var p := Prepare(l, old(disk), View(old(disk), old(dirty)), Lh());
        disk == Apply(old(disk), p) && trace == old(trace) + p
    {
      hide Lh, Apply, Header, LogWrites, PutHeader;
      ghost var d, v, lh := disk, View(disk, dirty), Lh();
      PinnedCount(lh, dirty);
      assert forall b :: b in dirty ==> !InLog(l, b);
      panic := WriteLog();
      if panic {
        return;
      }
      PrepareStages(l, d, v, lh);
      WriteHead();
      Assoc(old(trace), LogWrites(l, lh, v), [Write(l.start, PutHeader(d[l.start], lh))]);
    }

    /** From the commit point on: install, then erase the header. */
    method CommitFinish()
      requires 0 <= n <= LOGSIZE == block.Length && Lists(l, disk, Lh())
      requires forall b :: b in dirty ==> b in Lh()
      modifies this`disk, this`dirty, this`trace, this`n
      ensures n == 0 && Lh() == [] && dirty == map[]
      ensures var ws := RecoverWrites(l, old(disk));
              disk == Apply(old(disk), ws) && trace == old(trace) + ws
      ensures LogEmpty(l, disk)
    {
      ghost var d, lh := disk, Lh();
      FinishStages(l, d, lh);
      hide Lh, Apply, Loggable, Header, InstallWrites, PutHeader;
      InstallTrans();
      assert dirty == map[];
      EraseHead();
      Assoc(old(trace), InstallWrites(l, lh, d), [Write(l.start, PutHeader(d[l.start], []))]);
    }

    /**
    commit(): its disk writes are exactly CommitWrites, and nothing stays pinned.  A group as large as the
    cache panics before the first write.
    */
    method Commit() returns (panic: bool)
      requires Valid() && LogEmpty(l, disk)
      modifies this`disk, this`dirty, this`trace, this`n
      ensures panic <==> old(n) >= NBUF
      ensures panic ==> disk == old(disk) && dirty == old(dirty) && trace == old(trace) && n == old(n)
      ensures !panic ==>
        && Valid() && LogEmpty(l, disk) && n == 0 && dirty == map[]
        && Loggable(l, |old(disk)|, old(Lh()))
        && var ws := CommitWrites(l, old(disk), View(old(disk), old(dirty)), old(Lh()));
        disk == Apply(old(disk), ws) && trace == old(trace) + ws
    {
      hide Apply, Header, Prepare, Finish;
      ApplyNone(disk);
      if n > 0 {
        ghost var d, v, lh := disk, View(disk, dirty), Lh();
        panic := CommitPrepare();
        if panic {
          return;
        }
        assert OnlyLogged(l, d, v, lh);
        CommitPoint(l, d, v, lh);
        ApplyConcat(d, Prepare(l, d, v, lh), Finish(l, d, v, lh));
        Assoc(old(trace), Prepare(l, d, v, lh), Finish(l, d, v, lh));
        CommitFinish();
      }
      return false;
    }

    /** Load the header from disk into memory. */
    method ReadHead()
      requires WellFormed(l, disk) && block.Length == LOGSIZE
      modifies this`n, block
      ensures 0 <= n <= LOGSIZE && Lh() == Header(disk[l.start])
    {
      var buf := disk[l.start];
      n := buf[0];
      var i := 0;
      while i < n
        invariant 0 <= i <= n == buf[0]
        invariant block[..i] == buf[1..1 + i]
      {
        block[i] := buf[1 + i];
        i := i + 1;
      }
    }

    /** recover_from_log() at boot: its disk writes are exactly RecoverWrites. */
    method RecoverFromLog()
      requires WellFormed(l, disk) && block.Length == LOGSIZE && dirty == map[]
      modifies this`disk, this`dirty, this`trace, this`n, block
      ensures Valid() && LogEmpty(l, disk) && n == 0 && dirty == map[]
      ensures var ws := RecoverWrites(l, old(disk));
              disk == Apply(old(disk), ws) && trace == old(trace) + ws
    {
      ReadHead();
      CommitFinish();
    }

    /** end_op: the last operation out commits the whole group. */
    method EndOp() returns (panic: bool)
      requires Valid() && LogEmpty(l, disk)
      modifies this`disk, this`dirty, this`trace, this`n, this`outstanding, this`committing
      ensures panic <==> old(committing) || (outstanding == 0 && old(n) >= NBUF)
      ensures outstanding == old(outstanding) - 1
      // log.committing stays set only where the kernel stops
      ensures committing <==> panic
      ensures panic || outstanding != 0 ==>
        disk == old(disk) && dirty == old(dirty) && n == old(n) && trace == old(trace)
      ensures !panic ==> Valid()
      ensures !panic && outstanding == 0 ==>
        && LogEmpty(l, disk) && n == 0 && dirty == map[]
        && Loggable(l, |old(disk)|, old(Lh()))
        && var ws := CommitWrites(l, old(disk), View(old(disk), old(dirty)), old(Lh()));
        disk == Apply(old(disk), ws) && trace == old(trace) + ws
    {
      outstanding := outstanding - 1;
      if committing {
        return true;
      }
      if outstanding == 0 {
        committing := true;
        panic := Commit();
        if panic {
          return;
        }
        committing := false;
      }
      return false;
    }
  }
}
