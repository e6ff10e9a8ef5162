/**
filewrite (file.c): a write is cut into chunks small enough that the blocks each chunk logs
fit one log reservation, and the chunks together are one splice of the file.
*/
module FileWrite {
  import opened Params
  import opened FsImage
  import opened FsInode
  import opened FsFile
  import opened FsLog
  import opened FileSystem
  import LogDisk

  /** ((MAXOPBLOCKS - 1 - 1 - 2) / 2) * 512 */
  const CHUNK := 1536

  // ----- how many blocks one chunk logs -----

  lemma {:induction false} SpanSize(m: Image, i: int, f: int, cnt: nat)
    ensures |SpanNeeds(m, i, f, cnt)| <= cnt + if IND in SpanNeeds(m, i, f, cnt) then 1 else 0
    ensures cnt > 0 && BlockOf(m, i, f) != 0 ==>
      |SpanNeeds(m, i, f, cnt)| <= cnt - 1 + if IND in SpanNeeds(m, i, f, cnt) then 1 else 0
  {
    hide Addr;
    if cnt > 0 {
      SpanSize(m, i, f, cnt - 1);
    }
  }

  /** The bitmap blocks over the first free blocks, one for each block that has to be allocated. */
  function NewMaps(sb: Super, m: Image, i: int, off: nat, n: nat): seq<int>
    requires Shape(sb, m) && Room(sb, m, i, off / 512, BlocksSpanned(off, n))
  {
    Maps(sb, Frees(sb, m.blk)[..|SpanNeeds(m, i, off / 512, BlocksSpanned(off, n))|])
  }

  /** The size of a write's transaction. */
  lemma TransactionSize(sb: Super, m: Image, own: Owner, i: nat, off: nat, n: nat)
    requires Consistent(sb, m, own) && i < |m.ino| && Room(sb, m, i, off / 512, BlocksSpanned(off, n))
    ensures var s := SpanNeeds(m, i, off / 512, BlocksSpanned(off, n));
            |WriteiLog(sb, m, i, off, n)| ==
            BlocksSpanned(off, n) + (if Indirect(s) then 1 else 0) + |Elems(NewMaps(sb, m, i, off, n))|
            + if n > 0 && off + n > m.ino[i].size then 1 else 0
  {
    hide Owns, WriteLog, SpanNeeds, Indirect, Frees, IBlock;
    WriteLogSize(sb, m, own, i, off / 512, BlocksSpanned(off, n));
  }

  lemma ChunkSpan(off: nat, n: nat)
    requires n <= CHUNK
    ensures BlocksSpanned(off, n) <= 4
    ensures BlocksSpanned(off, n) == 4 ==> n > 0 && off % 512 != 0
  {
  }

  /**
  A chunk needs at most one block more than a reservation, and it does exactly when it grows the file,
  spans four blocks, has to allocate all of them and the indirect block too, and the five first
  free blocks lie under five different bitmap blocks.
  */
  lemma ChunkOverflow(sb: Super, m: Image, own: Owner, i: nat, off: nat, n: nat)
    requires Consistent(sb, m, own) && i < |m.ino| && n <= CHUNK
    requires Room(sb, m, i, off / 512, BlocksSpanned(off, n))
    ensures |WriteiLog(sb, m, i, off, n)| <= MAXOPBLOCKS + 1
    ensures |WriteiLog(sb, m, i, off, n)| == MAXOPBLOCKS + 1 <==>
      && BlocksSpanned(off, n) == 4 && off + n > m.ino[i].size
      && |SpanNeeds(m, i, off / 512, 4)| == 5
      && LogDisk.Distinct(NewMaps(sb, m, i, off, n))
  {
    hide Owns, WriteiLog, SpanNeeds, Frees, Indirect;
    var s := SpanNeeds(m, i, off / 512, BlocksSpanned(off, n));
    ChunkSpan(off, n);
    TransactionSize(sb, m, own, i, off, n);
    SpanSize(m, i, off / 512, BlocksSpanned(off, n));
    ElemsSize(NewMaps(sb, m, i, off, n));
    if IND in s {
      HasIndirect(s, IND);
    }
  }

  lemma HasIndirect(s: seq<int>, k: int)
    requires k in s && k >= IND
    ensures Indirect(s)
  {
  }

  /**
  The transaction size bound: data, indirect, bitmap and inode blocks of one chunk together
  are at most MAXOPBLOCKS, wherever on a hole-free file it starts.
  */
  lemma ChunkFits(sb: Super, m: Image, own: Owner, i: nat, off: nat, n: nat)
    requires Consistent(sb, m, own) && i < |m.ino| && HoleFree(m, i) && off <= m.ino[i].size && n <= CHUNK
    requires Room(sb, m, i, off / 512, BlocksSpanned(off, n))
    ensures |WriteiLog(sb, m, i, off, n)| <= MAXOPBLOCKS
  {
    hide Owns, WriteiLog, SpanNeeds, Frees, Addr;
    ChunkSpan(off, n);
    ChunkOverflow(sb, m, own, i, off, n);
    if BlocksSpanned(off, n) == 4 {
      assert 0 <= off / 512 < Blocks(m.ino[i].size);
      SpanSize(m, i, off / 512, 4);
    }
  }

  // ----- the bound is tight, and holes break it -----

  /** Without an indirect block, a chunk over blocks 11 to 14 fills these slots, in this order. */
  lemma FourBlocks(m: Image, i: int)
    requires Addr(m, i, IND) == 0
    ensures SpanNeeds(m, i, 11, 4) == (if BlockOf(m, i, 11) == 0 then [11] else []) + [12, 13, 14, 15]
  {
    var a := if BlockOf(m, i, 11) == 0 then [11] else [];
    assert SpanNeeds(m, i, 11, 0) == [];
    assert SpanNeeds(m, i, 11, 1) == a;
    assert SpanNeeds(m, i, 11, 2) == a + [12, 13];
    assert SpanNeeds(m, i, 11, 3) == a + [12, 13, 14];
  }

  /** An inode without indirect block, a chunk that starts inside its block 11 and grows the file. */
  predicate AtTheEdge(m: Image, i: nat, off: nat) {
    && i < |m.ino| && Addr(m, i, IND) == 0
    && off / 512 == 11 && off % 512 != 0 && off <= m.ino[i].size < off + CHUNK
  }

  lemma EdgeNeeds(m: Image, i: nat, off: nat)
    requires AtTheEdge(m, i, off)
    ensures BlocksSpanned(off, CHUNK) == 4
    ensures |SpanNeeds(m, i, off / 512, 4)| == if BlockOf(m, i, 11) == 0 then 5 else 4
    ensures Indirect(SpanNeeds(m, i, off / 512, 4))
  {
    hide Addr;
    FourBlocks(m, i);
    assert 15 in SpanNeeds(m, i, 11, 4);
  }

  /**
  The reservation can be used to the last block: block 11 is there, and the four first free blocks,
  which become the indirect block and blocks 12 to 14, lie under different bitmap blocks.
  */
  lemma BoundIsTight(sb: Super, m: Image, own: Owner, i: nat, off: nat)
    requires Consistent(sb, m, own) && AtTheEdge(m, i, off) && BlockOf(m, i, 11) != 0
    requires |Frees(sb, m.blk)| >= 4 && LogDisk.Distinct(Maps(sb, Frees(sb, m.blk)[..4]))
    ensures Room(sb, m, i, off / 512, BlocksSpanned(off, CHUNK))
    ensures |WriteiLog(sb, m, i, off, CHUNK)| == MAXOPBLOCKS
  {
    hide Owns, WriteiLog, SpanNeeds, Frees, Addr, Indirect, Maps;
    EdgeNeeds(m, i, off);
    TransactionSize(sb, m, own, i, off, CHUNK);
    ElemsSize(NewMaps(sb, m, i, off, CHUNK));
  }

  /** With a hole at block 11 the same chunk needs one bitmap block more than the reservation. */
  lemma HolesBreakBound(sb: Super, m: Image, own: Owner, i: nat, off: nat)
    requires Consistent(sb, m, own) && AtTheEdge(m, i, off) && BlockOf(m, i, 11) == 0
    requires |Frees(sb, m.blk)| >= 5 && LogDisk.Distinct(Maps(sb, Frees(sb, m.blk)[..5]))
    ensures Room(sb, m, i, off / 512, BlocksSpanned(off, CHUNK))
    ensures |WriteiLog(sb, m, i, off, CHUNK)| == MAXOPBLOCKS + 1
  {
    hide Owns, WriteiLog, SpanNeeds, Frees, Addr, Indirect, Maps;
    EdgeNeeds(m, i, off);
    ChunkOverflow(sb, m, own, i, off, CHUNK);
  }

  // ----- the chunk loop -----

  /** What a write of src at off leaves, if it may start there at all. */
  function Spliced(c: seq<int>, off: nat, src: seq<int>): seq<int> {
    if off <= |c| then Splice(c, off, src) else c
  }

  lemma SpliceChunks(c: seq<int>, off: nat, a: seq<int>, b: seq<int>)
    requires off <= |c|
    ensures Splice(Splice(c, off, a), off + |a|, b) == Splice(c, off, a + b)
  {
  }

  lemma SpliceNothing(c: seq<int>, off: nat)
    ensures Spliced(c, off, []) == c
  {
  }

  /** A consistent image without holes whose inode blocks agree with its inodes. */
  ghost predicate Sound(sb: Super, m: Image, own: Owner) {
    Consistent(sb, m, own) && NoHoles(m) && Stores(sb, m.blk, m.ino)
  }

  lemma ValidSound(fs: FileSys)
    requires fs.Valid()
    ensures fs.Books() && Sound(fs.sb, fs.Img(), fs.own) && Shape(fs.sb, fs.Img())
  {
  }

  /** No inode but ip has changed, and of it only the size and the addresses. */
  predicate SameMeta(m: Image, n: Image, ip: nat) {
    && ip < |m.ino| == |n.ino|
    && n.ino[ip] == m.ino[ip].(size := n.ino[ip].size, addrs := n.ino[ip].addrs)
    && forall j :: 0 <= j < |m.ino| && j != ip ==> n.ino[j] == m.ino[j]
  }

  /** A sound image that differs from m0 in the bytes written to file ip, if at all. */
  ghost predicate Holds(sb: Super, m0: Image, ip: nat, off: nat, bytes: seq<int>, n: Image, own: Owner)
    requires ip < |m0.ino|
  {
    && Sound(sb, n, own) && |n.ino| == |m0.ino| && SameMeta(m0, n, ip)
    && Content(n, ip) == Spliced(Content(m0, ip), off, bytes)
    && forall j :: 0 <= j < |m0.ino| && j != ip ==> Content(n, j) == Content(m0, j)
  }

  /** A chunk that was written: its log_write calls and the image after it. */
  datatype Step = Step(writes: seq<LogDisk.Write>, after: Image, own: Owner)

  function Before(m0: Image, log: seq<Step>, k: nat): Image
    requires k <= |log|
  {
    if k == 0 then m0 else log[k - 1].after
  }

  function Min(a: nat, b: nat): nat {
    if a < b then a else b
  }

  /** The first k chunks of src. */
  function Head(src: seq<int>, k: nat): seq<int> {
    src[..Min(|src|, k * 1536)]
  }

  /** The k-th chunk is a transaction that fits a reservation and leaves a sound image. */
  ghost predicate StepOk(sb: Super, m0: Image, ip: nat, off: nat, src: seq<int>, log: seq<Step>, k: nat)
    requires ip < |m0.ino| && k < |log|
  {
    && log[k].after.blk == LogDisk.Apply(Before(m0, log, k).blk, log[k].writes)
    && |Addrs(log[k].writes)| <= MAXOPBLOCKS
    && (forall w :: w in log[k].writes ==> sb.inodestart <= w.addr < sb.size)
    && Holds(sb, m0, ip, off, Head(src, k + 1), log[k].after, log[k].own)
  }

  ghost predicate Steps(sb: Super, m0: Image, ip: nat, off: nat, src: seq<int>, log: seq<Step>)
    requires ip < |m0.ino|
  {
    forall k :: 0 <= k < |log| ==> StepOk(sb, m0, ip, off, src, log, k)
  }

  lemma StepsSnoc(sb: Super, m0: Image, ip: nat, off: nat, src: seq<int>, log: seq<Step>, t: Step)
    requires ip < |m0.ino| && Steps(sb, m0, ip, off, src, log)
    requires StepOk(sb, m0, ip, off, src, log + [t], |log|)
    ensures Steps(sb, m0, ip, off, src, log + [t])
  {
    hide Holds, Addrs, Head, LogDisk.Apply;
    forall k | 0 <= k < |log|
      ensures StepOk(sb, m0, ip, off, src, log + [t], k)
    {
      assert StepOk(sb, m0, ip, off, src, log, k);
    }
  }

  /** What the loop of filewrite knows on a regular file: i bytes are written, n is the image now. */
  ghost predicate Writing(sb: Super, m0: Image, ip: nat, off: nat, src: seq<int>, log: seq<Step>, i: nat, n: Image, own: Owner)
    requires ip < |m0.ino|
  {
    && i == Min(|src|, |log| * 1536)
    && Steps(sb, m0, ip, off, src, log) && n == Before(m0, log, |log|)
    && Holds(sb, m0, ip, off, src[..i], n, own)
    && n.ino[ip].size >= m0.ino[ip].size
    && (i > 0 ==> off <= m0.ino[ip].size && off + i <= n.ino[ip].size)
  }

  lemma WritingStart(sb: Super, m0: Image, own: Owner, ip: nat, off: nat, src: seq<int>)
    requires Sound(sb, m0, own) && ip < |m0.ino|
    ensures Writing(sb, m0, ip, off, src, [], 0, m0, own)
  {
    SpliceNothing(Content(m0, ip), off);
    assert src[..0] == [];
  }

  /** One chunk more. */
  lemma HoldsNext(sb: Super, m0: Image, ip: nat, off: nat, a: seq<int>, b: seq<int>,
                  n: Image, own: Owner, o: Image, own': Owner)
    requires ip < |m0.ino| && Holds(sb, m0, ip, off, a, n, own) && off <= |Content(m0, ip)|
    requires Sound(sb, o, own') && |o.ino| == |n.ino| && SameMeta(n, o, ip)
    requires off + |a| <= |Content(n, ip)| && Content(o, ip) == Splice(Content(n, ip), off + |a|, b)
    requires forall j :: 0 <= j < |n.ino| && j != ip ==> Content(o, j) == Content(n, j)
    ensures Holds(sb, m0, ip, off, a + b, o, own')
  {
    hide Splice, Content, Sound;
    SpliceChunks(Content(m0, ip), off, a, b);
  }

  /** One turn of the loop. */
  lemma WritingNext(sb: Super, m0: Image, ip: nat, off: nat, src: seq<int>, log: seq<Step>, i: nat, n1: nat,
                    n: Image, own: Owner, t: Step)
    requires ip < |m0.ino| && Writing(sb, m0, ip, off, src, log, i, n, own) && |n.ino| == |m0.ino|
    requires i < |src| && n1 == Min(|src| - i, 1536) && off + i <= n.ino[ip].size
    requires Sound(sb, t.after, t.own) && |t.after.ino| == |n.ino| && SameMeta(n, t.after, ip)
    requires Content(t.after, ip) == Splice(Content(n, ip), off + i, src[i..i + n1])
    requires forall j :: 0 <= j < |n.ino| && j != ip ==> Content(t.after, j) == Content(n, j)
    requires t.after.blk == LogDisk.Apply(n.blk, t.writes) && |Addrs(t.writes)| <= MAXOPBLOCKS
    requires forall w :: w in t.writes ==> sb.inodestart <= w.addr < sb.size
    ensures Writing(sb, m0, ip, off, src, log + [t], i + n1, t.after, t.own)
  {
    hide Splice, Content, Sound, Steps, Addrs, LogDisk.Apply;
    assert i == 0 ==> log == [];
    HoldsNext(sb, m0, ip, off, src[..i], src[i..i + n1], n, own, t.after, t.own);
    assert src[..i] + src[i..i + n1] == src[..i + n1] == Head(src, |log| + 1);
    StepsSnoc(sb, m0, ip, off, src, log, t);
  }

  /** What the loop leaves behind. */
  lemma WritingEnd(sb: Super, m0: Image, ip: nat, off: nat, src: seq<int>, log: seq<Step>, i: nat, n: Image, own: Owner)
    requires ip < |m0.ino| && Writing(sb, m0, ip, off, src, log, i, n, own)
    ensures i <= |src| && |Head(src, |log|)| == i && |n.ino| == |m0.ino| && Shape(sb, n)
    ensures Steps(sb, m0, ip, off, src, log) && n == Before(m0, log, |log|)
    ensures Holds(sb, m0, ip, off, src[..i], n, own)
    ensures n.ino[ip].size >= m0.ino[ip].size
    ensures i > 0 ==> off <= m0.ino[ip].size && off + i <= n.ino[ip].size
    ensures i == 0 && src != [] ==> n == m0
  {
  }

  /** What a driver makes of a write that filewrite hands to it in chunks; Count(0) once all are accepted. */
  function DeviceWrite(driver: (int, seq<int>) -> int, major: int, src: seq<int>): Io {
    if src == [] then Count(0) else
      var n1 := Min(|src|, 1536);
      var a := driver(major, src[..n1]);
      if a < 0 then Err else if a != n1 then Panic else DeviceWrite(driver, major, src[n1..])
  }

  /** How far the offset moves meanwhile. */
  function DeviceBytes(driver: (int, seq<int>) -> int, major: int, src: seq<int>): nat {
    if src == [] then 0 else
      var n1 := Min(|src|, 1536);
      var a := driver(major, src[..n1]);
      if a < 0 then 0 else if a != n1 then a else n1 + DeviceBytes(driver, major, src[n1..])
  }

  /** What the driver answers to the chunk at i. */
  function Answer(driver: (int, seq<int>) -> int, major: int, src: seq<int>, i: nat): int
    requires i < |src|
  {
    driver(major, src[i..i + Min(|src| - i, 1536)])
  }

  lemma AnswerIs(driver: (int, seq<int>) -> int, major: int, src: seq<int>, i: nat, n1: nat)
    requires i < |src| && n1 == Min(|src| - i, 1536)
    ensures Answer(driver, major, src, i) == driver(major, src[i..i + n1])
  {
  }

  lemma DeviceNext(driver: (int, seq<int>) -> int, major: int, src: seq<int>, i: nat, n1: nat)
    requires i < |src| && n1 == Min(|src| - i, 1536)
    ensures var a := Answer(driver, major, src, i);
            && DeviceWrite(driver, major, src[i..]) ==
               (if a < 0 then Err else if a != n1 then Panic else DeviceWrite(driver, major, src[i + n1..]))
            && DeviceBytes(driver, major, src[i..]) ==
               (if a < 0 then 0 else if a != n1 then a else n1 + DeviceBytes(driver, major, src[i + n1..]))
  {
    assert src[i..][..n1] == src[i..i + n1] && src[i..][n1..] == src[i + n1..];
  }

  lemma DeviceDone(driver: (int, seq<int>) -> int, major: int, src: seq<int>)
    ensures DeviceWrite(driver, major, src[|src|..]) == Count(0) && DeviceBytes(driver, major, src[|src|..]) == 0
  {
  }

  /**
  The first chunk that the driver does not take in full decides: an error if it refuses, a panic if it
  takes another number of bytes.  Without one all of src is taken.  k full chunks are known to be taken.
  */
  lemma {:induction false} DeviceExact(driver: (int, seq<int>) -> int, major: int, src: seq<int>, k: nat)
    requires forall j :: 0 <= j < k && j * 1536 < |src| ==>
      Answer(driver, major, src, j * 1536) == Min(|src| - j * 1536, 1536)
    ensures k * 1536 >= |src| ==> DeviceWrite(driver, major, src) == Count(0) && DeviceBytes(driver, major, src) == |src|
    ensures k * 1536 < |src| && Answer(driver, major, src, k * 1536) != Min(|src| - k * 1536, 1536) ==>
      var a := Answer(driver, major, src, k * 1536);
      && DeviceWrite(driver, major, src) == (if a < 0 then Err else Panic)
      && DeviceBytes(driver, major, src) == k * 1536 + if a < 0 then 0 else a
  {
    DeviceTail(driver, major, src, k, 0);
    assert src[0..] == src;
  }

  lemma {:induction false} DeviceTail(driver: (int, seq<int>) -> int, major: int, src: seq<int>, k: nat, i: nat)
    requires i <= k && (i * 1536 < |src| || i == 0)
    requires forall j :: 0 <= j < k && j * 1536 < |src| ==>
      Answer(driver, major, src, j * 1536) == Min(|src| - j * 1536, 1536)
    ensures k * 1536 >= |src| ==>
      DeviceWrite(driver, major, src[i * 1536..]) == Count(0) && DeviceBytes(driver, major, src[i * 1536..]) == |src| - i * 1536
    ensures k * 1536 < |src| && Answer(driver, major, src, k * 1536) != Min(|src| - k * 1536, 1536) ==>
      var a := Answer(driver, major, src, k * 1536);
      && DeviceWrite(driver, major, src[i * 1536..]) == (if a < 0 then Err else Panic)
      && DeviceBytes(driver, major, src[i * 1536..]) == (k - i) * 1536 + if a < 0 then 0 else a
    decreases k - i
  {
    hide DeviceWrite, DeviceBytes, Answer;
    DeviceDone(driver, major, src);
    if i * 1536 < |src| {
      DeviceNext(driver, major, src, i * 1536, Min(|src| - i * 1536, 1536));
      if i < k && (i + 1) * 1536 < |src| {
        DeviceTail(driver, major, src, k, i + 1);
      }
    }
  }

  lemma WithinFile(sb: Super, m: Image, own: Owner, i: nat, off: nat, n: nat)
    requires Sound(sb, m, own) && i < |m.ino| && off + n <= m.ino[i].size
    ensures Shape(sb, m) && m.ino[i].size <= MAXBYTES && Room(sb, m, i, off / 512, BlocksSpanned(off, n))
  {
    hide SpanNeeds, Owns, Stores;
    assert HoleFree(m, i);
    OverwriteNeeds(m, i, off, n);
  }

  /** The offset is an unsigned int. */
  function Uint(x: nat): (r: nat)
    ensures r < UINT && (x < UINT ==> r == x)
  {
    x % 0x1_0000_0000
  }

  lemma UintAdd(x: nat, y: nat)
    ensures Uint(Uint(x) + y) == Uint(x + y)
  {
  }

  /** struct file, as far as writing through it goes. */
  class File {
    var ip: nat
    var off: nat
    const writable: bool

    constructor (ip: nat, off: nat, writable: bool)
      ensures this.ip == ip && this.off == off && this.writable == writable
    {
      this.ip, this.off, this.writable := ip, off, writable;
    }
  }

  /** One turn of the loop: a transaction of its own around one writei. */
  method Chunk(fs: FileSys, f: File, src: seq<int>, driver: (int, seq<int>) -> int) returns (r: Io)
    requires fs.Valid() && f.ip < |fs.mem| && f.off < UINT && 0 < |src| <= CHUNK
    modifies fs`blk, fs`mem, fs`own, fs`dsk, fs`base, fs`trace, f`off
    ensures fs.Books() && !r.Device?
    ensures old(fs.mem)[f.ip].typ == T_DEV ==>
      && fs.Valid() && fs.Img() == old(fs.Img())
      && var d, a := old(fs.Dispatch(fs.mem[f.ip].major)), driver(old(fs.mem)[f.ip].major, src);
      r == if d.Err? || a < 0 then Err else Count(a)
    ensures old(fs.mem)[f.ip].typ != T_DEV ==>
      && (r.Panic? || r.Err? || r == Count(|src|))
      && (r.Err? <==> old(f.off) > old(fs.mem)[f.ip].size || old(f.off) + |src| > MAXBYTES)
      && (r.Panic? <==> !r.Err? && !Room(fs.sb, old(fs.Img()), f.ip, old(f.off) / 512, BlocksSpanned(old(f.off), |src|)))
    ensures r.Panic? ==> f.off == old(f.off) && Frees(fs.sb, fs.blk) == []
    ensures r.Err? ==> fs.Valid() && fs.Img() == old(fs.Img()) && fs.own == old(fs.own) && f.off == old(f.off)
    ensures r.Count? ==> f.off == Uint(old(f.off) + r.n)
    ensures r.Count? && old(fs.mem)[f.ip].typ != T_DEV ==>
      && fs.Valid() && |fs.mem| == |old(fs.mem)| && fs.mem[f.ip].typ == old(fs.mem)[f.ip].typ
      && SameMeta(old(fs.Img()), fs.Img(), f.ip)
      && Content(fs.Img(), f.ip) == Splice(Content(old(fs.Img()), f.ip), old(f.off), src)
      && (forall j :: 0 <= j < |fs.mem| && j != f.ip ==> Content(fs.Img(), j) == Content(old(fs.Img()), j))
      // the whole transaction fits the reservation
      && fs.blk == LogDisk.Apply(old(fs.blk), fs.trace) && |Addrs(fs.trace)| <= MAXOPBLOCKS
      && (forall w :: w in fs.trace ==> fs.sb.inodestart <= w.addr < fs.sb.size)
  {
    hide Splice, Content, Owns, WriteLog, Used, Frees, Room, Stores, HoleFree;
    fs.BeginTransaction();
    var w := fs.Writei(f.ip, f.off, src);
    if w.Device? {
      var a := driver(w.major, src);
      if a < 0 {
        return Err;
      }
      f.off := Uint(f.off + a);
      return Count(a);
    }
    if w.Count? {
      ChunkFits(fs.sb, old(fs.Img()), old(fs.own), f.ip, f.off, |src|);
      f.off := Uint(f.off + w.n);
    }
    return w;
  }

  /** One turn of the loop, entered in the record of the chunks. */
  method Turn(fs: FileSys, f: File, src: seq<int>, i: nat, n1: nat, driver: (int, seq<int>) -> int,
              ghost m0: Image, ghost off: nat, ghost log: seq<Step>)
    returns (w: Io, ghost log': seq<Step>)
    requires fs.Valid() && f.ip < |fs.mem| == |m0.ino| && f.off < UINT && i < |src| && n1 == Min(|src| - i, 1536)
    requires fs.mem[f.ip].typ != T_DEV ==>
      f.off == off + i && Writing(fs.sb, m0, f.ip, off, src, log, i, fs.Img(), fs.own)
    modifies fs`blk, fs`mem, fs`own, fs`dsk, fs`base, fs`trace, f`off
    ensures f.off < UINT && fs.Books() && !w.Device? && (!w.Panic? ==> fs.Valid())
    ensures old(fs.mem)[f.ip].typ == T_DEV ==>
      && fs.Valid() && fs.Img() == old(fs.Img()) && log' == log
      && var d, a := old(fs.Dispatch(fs.mem[f.ip].major)), Answer(driver, old(fs.mem)[f.ip].major, src, i);
      && w == (if d.Err? || a < 0 then Err else Count(a))
      && f.off == Uint(old(f.off) + if w.Err? then 0 else a)
    ensures old(fs.mem)[f.ip].typ != T_DEV ==>
      && (w.Panic? || w.Err? || w == Count(n1))
      && (w.Err? <==> off + i > old(fs.mem)[f.ip].size || off + i + n1 > MAXBYTES)
      && (w.Panic? <==> !w.Err? && !Room(fs.sb, old(fs.Img()), f.ip, (off + i) / 512, BlocksSpanned(off + i, n1)))
      // a write within the file always finds its blocks
      && (off + i + n1 <= old(fs.mem)[f.ip].size ==> w.Count?)
      && (w.Panic? ==> log' == log && f.off == off + i && Frees(fs.sb, fs.blk) == [])
      && (w.Err? ==> log' == log && fs.Img() == old(fs.Img()) && fs.own == old(fs.own) && f.off == off + i)
      && (w.Count? ==>
            && |fs.mem| == |m0.ino| && fs.mem[f.ip].typ != T_DEV && f.off == off + i + n1
            && Writing(fs.sb, m0, f.ip, off, src, log', i + n1, fs.Img(), fs.own))
  {
    hide Splice, Content, Used, Steps, Holds, Sound, Writing, Frees, Room, Head, LogDisk.Apply, Addrs;
    hide FileSys.Books, FileSys.Valid, Uint, Shape, BlocksSpanned, Answer, Consistent, SameMeta;
    ghost var n, own, ip, dev := fs.Img(), fs.own, f.ip, fs.mem[f.ip].typ == T_DEV;
    log' := log;
    if !dev {
      WritingEnd(fs.sb, m0, ip, off, src, log, i, n, own);
    }
    if !dev && off + i + n1 <= fs.mem[ip].size {
      ValidSound(fs);
      WithinFile(fs.sb, n, own, ip, off + i, n1);
    }
    AnswerIs(driver, n.ino[ip].major, src, i, n1);
    w := Chunk(fs, f, src[i..i + n1], driver);
    if w.Count? && !dev {
      ValidSound(fs);
      ghost var t := Step(fs.trace, fs.Img(), fs.own);
      WritingNext(fs.sb, m0, ip, off, src, log, i, n1, n, own, t);
      log' := log + [t];
    }
  }

  /**
  Why filewrite stopped after done bytes, with the file as in m: everything is written, or the next chunk
  is out of range, or it is in range and there is no room for it.
  */
  ghost predicate Stopped(sb: Super, m: Image, ip: nat, off: nat, src: seq<int>, done: nat, r: Io) {
    && Shape(sb, m) && ip < |m.ino| && done <= |src|
    && var n1 := Min(|src| - done, CHUNK);
    && (r == Count(|src|) <==> done == |src|)
    && (r == Err <==> done < |src| && (off + done > m.ino[ip].size || off + done + n1 > MAXBYTES))
    && (r == Panic <==>
          && done < |src| && off + done <= m.ino[ip].size && off + done + n1 <= MAXBYTES
          && !Room(sb, m, ip, (off + done) / 512, BlocksSpanned(off + done, n1)))
  }

  lemma StoppedBy(sb: Super, m: Image, ip: nat, off: nat, src: seq<int>, i: nat, r: Io)
    requires Shape(sb, m) && ip < |m.ino| && i < |src|
    requires var n1 := Min(|src| - i, CHUNK);
             && (r == Err <==> off + i > m.ino[ip].size || off + i + n1 > MAXBYTES)
             && (r == Panic <==> r != Err && !Room(sb, m, ip, (off + i) / 512, BlocksSpanned(off + i, n1)))
             && (r == Err || r == Panic)
    ensures Stopped(sb, m, ip, off, src, i, r)
  {
  }

  lemma StoppedDone(sb: Super, m: Image, ip: nat, off: nat, src: seq<int>)
    requires Shape(sb, m) && ip < |m.ino|
    ensures Stopped(sb, m, ip, off, src, |src|, Count(|src|))
  {
  }

  /**
  filewrite on an inode.  A regular file gets src chunk by chunk; log records the chunks, each a
  transaction that fits a reservation and leaves a sound image.  Everything is written exactly when the
  range is legal and there is room; otherwise the first chunk that is not is the first not written.
  */
  method Filewrite(fs: FileSys, f: File, src: seq<int>, driver: (int, seq<int>) -> int)
    returns (r: Io, ghost log: seq<Step>)
    requires fs.Valid() && f.ip < |fs.mem| && f.off < UINT && |src| < UINT
    modifies fs`blk, fs`mem, fs`own, fs`dsk, fs`base, fs`trace, f`off
    ensures fs.Books()
    ensures !f.writable ==> r == Err && log == [] && fs.Img() == old(fs.Img()) && f.off == old(f.off)
    ensures f.writable && old(fs.mem)[f.ip].typ == T_DEV ==>
      && fs.Valid() && fs.Img() == old(fs.Img()) && log == []
      && var major := old(fs.mem)[f.ip].major;
      var none := src != [] && old(fs.Dispatch(major)).Err?;
      var a := if none then Err else DeviceWrite(driver, major, src);
      && r == (if a.Count? then Count(|src|) else a)
      && f.off == Uint(old(f.off) + if none then 0 else DeviceBytes(driver, major, src))
    ensures f.writable && old(fs.mem)[f.ip].typ != T_DEV ==>
      var m0, off, done := old(fs.Img()), old(f.off), |Head(src, |log|)|;
      var m := Before(m0, log, |log|);
      && Steps(fs.sb, m0, f.ip, off, src, log) && f.off == off + done
      && Stopped(fs.sb, m, f.ip, off, src, done, r)
      && (off + |src| <= m0.ino[f.ip].size ==> r == Count(|src|))
      && (r == Panic ==> Frees(fs.sb, fs.blk) == [])
      && (r != Panic ==> fs.Valid() && fs.Img() == m && Holds(fs.sb, m0, f.ip, off, src[..done], m, fs.own))
  {
    hide Splice, Content, Used, Steps, Holds, Sound, Writing, Frees, Room, Head, DeviceWrite, DeviceBytes, Answer, LogDisk.Apply, Addrs;
    hide FileSys.Books, FileSys.Valid, Stopped, Shape, Before, Uint;
    ghost var m0, off, ip := fs.Img(), f.off, f.ip;
    log := [];
    ValidSound(fs);
    var i := 0;
    if !f.writable {
      return Err, log;
    }
    ghost var dev, major := fs.mem[ip].typ == T_DEV, fs.mem[ip].major;
    WritingStart(fs.sb, m0, fs.own, ip, off, src);
    assert src[0..] == src;
    while i < |src|
      invariant 0 <= i <= |src| && f.ip == ip && f.off < UINT && fs.Valid() && |fs.mem| == |m0.ino|
      invariant dev ==> fs.Img() == m0 && log == []
      invariant dev ==> DeviceWrite(driver, major, src) == DeviceWrite(driver, major, src[i..])
      invariant dev ==> DeviceBytes(driver, major, src) == i + DeviceBytes(driver, major, src[i..])
      invariant dev ==> f.off == Uint(off + i)
      invariant dev && i > 0 ==> !old(fs.Dispatch(major)).Err?
      invariant !dev ==> f.off == off + i && fs.mem[ip].typ != T_DEV
      invariant !dev ==> Writing(fs.sb, m0, ip, off, src, log, i, fs.Img(), fs.own)
    {
      var n1 := |src| - i;
      if n1 > CHUNK {
        n1 := CHUNK;
      }
      if !dev {
        WritingEnd(fs.sb, m0, ip, off, src, log, i, fs.Img(), fs.own);
      }
      DeviceNext(driver, major, src, i, n1);
      UintAdd(off + i, n1);
      ghost var n := fs.Img();
      var w;
      w, log := Turn(fs, f, src, i, n1, driver, m0, off, log);
      if dev && w.Count? {
        UintAdd(off + i, w.n);
      }
      if !dev && !w.Count? {
        StoppedBy(fs.sb, n, ip, off, src, i, w);
      }
      if w.Panic? {
        return Panic, log;
      }
      if w.Err? {
        return Err, log;
      }
      if w.n != n1 {
        return Panic, log;
      }
      i := i + n1;
    }
    if !dev {
      WritingEnd(fs.sb, m0, ip, off, src, log, i, fs.Img(), fs.own);
    }
    ValidSound(fs);
    StoppedDone(fs.sb, fs.Img(), ip, off, src);
    DeviceDone(driver, major, src);
    return Count(|src|), log;
  }
}
