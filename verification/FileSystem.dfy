/**
fs.c in its own form: block allocation, bmap, itrunc, readi, writei and iupdate as methods
that update the image in place.  blk is what bread shows for each block, inode blocks included,
and mem holds the in-memory inodes.  A false or Panic result stands for panic().
*/
module FileSystem {
  import opened Params
  import opened FsImage
  import opened FsFile
  import opened FsInode
  import opened FsLog
  import LogDisk

  const T_DEV := 3
  const NDEV := 10

  datatype Io = Err | Panic | Device(major: int) | Count(n: nat)

  /** How many blocks the bytes off .. off + n - 1 lie in. */
  function BlocksSpanned(off: nat, n: nat): nat {
    if n == 0 then 0 else (off + n - 1) / 512 - off / 512 + 1
  }

  lemma SpanStep(off: nat, tot: nat, w: nat)
    requires w > 0 && (off + tot) % 512 + w <= BSIZE
    requires (off + tot) / 512 == off / 512 + BlocksSpanned(off, tot)
    ensures BlocksSpanned(off, tot + w) == BlocksSpanned(off, tot) + 1
    ensures (off + tot) % 512 + w == BSIZE ==>
      (off + tot + w) / 512 == off / 512 + BlocksSpanned(off, tot + w)
  {
  }

  lemma SpanGrows(off: nat, a: nat, b: nat)
    requires a <= b
    ensures BlocksSpanned(off, a) <= BlocksSpanned(off, b)
  {
  }

  /** What writei logs: its blocks and, when the file grows, the inode's block. */
  function WriteiLog(sb: Super, m: Image, i: int, off: nat, n: nat): set<int>
    requires Shape(sb, m) && 0 <= i < |m.ino| && Room(sb, m, i, off / 512, BlocksSpanned(off, n))
  {
    WriteLog(sb, m, i, off / 512, BlocksSpanned(off, n))
    + if n > 0 && off + n > m.ino[i].size then {IBlock(sb, i)} else {}
  }

  lemma WrittenFrame(m: Image, n: Image, o: Image, i: int, off: nat, src: seq<int>, tot: nat)
    requires tot <= |src| && Written(m, n, i, off, src, tot) && o.blk == n.blk
    requires forall j, k {:trigger Addr(o, j, k)} :: Addr(o, j, k) == Addr(n, j, k)
    ensures Written(m, o, i, off, src, tot)
  {
    forall p
      ensures ByteAt(o, i, p) == ByteAt(n, i, p) && BlockOf(o, i, p / 512) == BlockOf(n, i, p / 512)
    {
    }
  }

  lemma WriteStart(sb: Super, m: Image, i: int, off: nat, src: seq<int>)
    requires Shape(sb, m)
    ensures Written(m, m, i, off, src, 0)
    ensures Filled(sb, m, m, i, SpanNeeds(m, i, off / 512, 0)) && WriteLog(sb, m, i, off / 512, 0) == {}
  {
    NothingLogged(sb, m, i, off / 512);
  }

  /** A write within a hole-free file needs no block. */
  lemma OverwriteNeeds(m: Image, i: int, off: nat, n: nat)
    requires 0 <= i < |m.ino| && NoHoles(m) && off + n <= m.ino[i].size
    ensures SpanNeeds(m, i, off / 512, BlocksSpanned(off, n)) == []
  {
    hide Addr;
    var f, cnt := off / 512, BlocksSpanned(off, n);
    assert HoleFree(m, i);
    forall x | f <= x < f + cnt
      ensures BlockOf(m, i, x) != 0
    {
      assert 0 <= x < Blocks(m.ino[i].size);
    }
    SpanNone(m, i, f, cnt);
  }

  /** A write changes the inode itself exactly if it fills one of the inode's own slots. */
  lemma InodeKept(sb: Super, m: Image, own: Owner, n: Image, i: nat, f: nat, cnt: nat)
    requires Consistent(sb, m, own) && Shape(sb, n) && i < |m.ino| && Filled(sb, m, n, i, SpanNeeds(m, i, f, cnt))
    requires n.ino == m.ino[i := m.ino[i].(addrs := n.ino[i].addrs)]
    ensures n.ino[i] == m.ino[i] <==> forall k :: k in SpanNeeds(m, i, f, cnt) ==> k > IND
  {
    hide Addr, Owns, Filled, SpanNeeds;
    var s := SpanNeeds(m, i, f, cnt);
    forall k | k in s
      ensures 0 <= k && Addr(m, i, k) == 0
    {
      SpanSlots(m, i, f, cnt, k);
    }
    forall k | 0 <= k <= IND
      ensures n.ino[i].addrs[k] == m.ino[i].addrs[k] <==> k !in s
    {
      DirectAddr(n, i, k);
      DirectAddr(m, i, k);
      FilledNonzero(sb, m, own, n, i, s, k);
      if k !in s {
        FilledOld(sb, m, n, i, s, k);
      }
    }
    if forall k :: k in s ==> k > IND {
      assert n.ino[i].addrs == m.ino[i].addrs;
    }
  }

  /**
  The end of writei on values: the size grows if the write went past it, the file is the splice,
  and no other file changes.
  */
  lemma WriteEnd(sb: Super, m: Image, own0: Owner, n: Image, own: Owner, i: nat, off: nat, src: seq<int>)
    requires Consistent(sb, m, own0) && Consistent(sb, n, own)
    requires i < |m.ino| && off <= m.ino[i].size && off + |src| <= MAXBYTES
    requires Written(m, n, i, off, src, |src|)
    requires n.ino == m.ino[i := m.ino[i].(addrs := n.ino[i].addrs)]
    ensures var end := if off + |src| > m.ino[i].size then off + |src| else m.ino[i].size;
            var o := n.(ino := n.ino[i := n.ino[i].(size := end)]);
            && (NoHoles(m) ==> NoHoles(o))
            && Content(o, i) == Splice(Content(m, i), off, src)
            && (forall j :: 0 <= j < |m.ino| && j != i ==> Content(o, j) == Content(m, j))
  {
    var end := if off + |src| > m.ino[i].size then off + |src| else m.ino[i].size;
    var o := n.(ino := n.ino[i := n.ino[i].(size := end)]);
    SizeFrame(sb, n, own, i, end);
    WrittenFrame(m, n, o, i, off, src, |src|);
    WrittenContent(sb, m, own0, o, own, i, off, src, end);
  }

  /** What lies before the bitmap, such as the inode blocks, is part of no file. */
  lemma HeadContent(sb: Super, m: Image, own: Owner, n: Image)
    requires Consistent(sb, m, own) && Shape(sb, n) && n.ino == m.ino
    requires forall x :: sb.bmapstart <= x < sb.size ==> n.blk[x] == m.blk[x]
    ensures Consistent(sb, n, own) && SameSlots(m, n) && (NoHoles(m) ==> NoHoles(n))
    ensures forall x :: 0 <= x < sb.size ==> (Used(sb, n.blk, x) <==> Used(sb, m.blk, x))
    ensures forall j :: 0 <= j < |m.ino| ==> Content(n, j) == Content(m, j)
  {
    hide Addr, Owns, Used;
    HeadFrame(sb, m, own, n);
    forall j | 0 <= j < |m.ino|
      ensures Content(n, j) == Content(m, j) && (HoleFree(m, j) ==> HoleFree(n, j))
    {
      assert forall q :: BlockOf(n, j, q) == BlockOf(m, j, q);
      forall q | 0 <= q < m.ino[j].size
        ensures ByteAt(n, j, q) == ByteAt(m, j, q)
      {
        if BlockOf(m, j, q / 512) != 0 {
          SlotRange(sb, m, own, j, DataSlot(q / 512));
        }
      }
    }
  }

  lemma InodeBlock(sb: Super, blk: seq<Block>, ino: seq<Dinode>, i: nat)
    requires Sized(sb, blk) && Stores(sb, blk, ino) && i < sb.ninodes
    ensures |ino| == sb.ninodes && sb.inodestart <= IBlock(sb, i) < sb.bmapstart
  {
  }

  /** An inode whose size and slots have changed still fits its 64 bytes. */
  lemma StillFits(sb: Super, m: Image, own: Owner, i: nat, d: Dinode)
    requires Consistent(sb, m, own) && i < |m.ino| && Fits(d) && m.ino[i].size < UINT
    requires m.ino[i] == d.(size := m.ino[i].size, addrs := m.ino[i].addrs)
    ensures Fits(m.ino[i])
  {
    hide Addr, Used;
    forall k | 0 <= k <= IND
      ensures 0 <= m.ino[i].addrs[k] < UINT
    {
      DirectAddr(m, i, k);
      if Addr(m, i, k) != 0 {
        SlotRange(sb, m, own, i, k);
      }
    }
  }

  /** Overlaying a data block fills no slot. */
  lemma StoreFills(sb: Super, m: Image, o: Image, own: Owner, i: int, s: seq<int>, bn: nat, b: Block)
    requires Shape(sb, m) && Consistent(sb, o, own) && Filled(sb, m, o, i, s)
    requires bn < MAXFILE && BlockOf(o, i, bn) != 0 && |b| == BSIZE
    ensures 0 < BlockOf(o, i, bn) < |o.blk| && Shape(sb, Store(o, BlockOf(o, i, bn), b))
    ensures Filled(sb, m, Store(o, BlockOf(o, i, bn), b), i, s)
  {
    hide Addr, Owns, Filled, Used, Frees;
    StoreOwns(sb, o, own, i, bn, b);
    SlotRange(sb, o, own, i, DataSlot(bn));
    var a := BlockOf(o, i, bn);
    forall x | 0 <= x < sb.size
      ensures Used(sb, Store(o, a, b).blk, x) <==> Used(sb, o.blk, x)
    {
      UsedFrame(sb, o.blk, Store(o, a, b).blk, a, x);
    }
    FilledStore(sb, m, o, Store(o, a, b), i, s);
  }

  /** own is own0 without the blocks in slots lo..hi-1 of inode i. */
  ghost predicate Released(own0: Owner, own: Owner, i: int, lo: int, hi: int) {
    && (forall b :: b in own <==> b in own0 && !(own0[b].0 == i && lo <= own0[b].1 < hi))
    && (forall b :: b in own ==> own[b] == own0[b])
  }

  /** The bitmap blocks of the blocks in slots lo..hi-1 of inode i. */
  ghost function FreedBits(sb: Super, own: Owner, i: int, lo: int, hi: int): set<int> {
    set b | b in own && own[b].0 == i && lo <= own[b].1 < hi :: BBlock(sb, b)
  }

  lemma FreedNone(sb: Super, own: Owner, i: int, lo: int, hi: int)
    requires Released(own, own, i, lo, hi)
    ensures FreedBits(sb, own, i, lo, hi) == {}
  {
  }

  lemma FreedEmpty(sb: Super, own: Owner, i: int, lo: int)
    ensures FreedBits(sb, own, i, lo, lo) == {}
  {
  }

  lemma FreedOne(sb: Super, own: Owner, b: nat, i: int, lo: int, hi: int)
    requires b in own && Released(own, own - {b}, i, lo, hi)
    ensures FreedBits(sb, own, i, lo, hi) == {BBlock(sb, b)}
  {
    assert b !in own - {b};
    assert forall c :: c in own && own[c].0 == i && lo <= own[c].1 < hi ==> c !in own - {b};
  }

  /** Slots lo..mid first, then the rest. */
  lemma FreedTrans(sb: Super, a: Owner, b: Owner, i: int, lo: int, mid: int, hi: int)
    requires Released(a, b, i, lo, mid) && lo <= mid <= hi
    ensures FreedBits(sb, a, i, lo, hi) == FreedBits(sb, a, i, lo, mid) + FreedBits(sb, b, i, mid, hi)
  {
  }

  /** The entries first, then the indirect block. */
  lemma FreedTail(sb: Super, a: Owner, b: Owner, i: int)
    requires Released(a, b, i, IND + 1, NSLOTS)
    ensures FreedBits(sb, a, i, IND, NSLOTS) == FreedBits(sb, a, i, IND + 1, NSLOTS) + FreedBits(sb, b, i, IND, IND + 1)
  {
  }

  lemma ReleasedNone(own: Owner, i: int)
    ensures Released(own, own, i, 0, 0)
  {
  }

  /** Dropping the block of one slot releases that slot. */
  lemma ReleasedOne(sb: Super, m: Image, own: Owner, dn: int, i: int, k: int)
    requires Shape(sb, m) && Owns(sb, m, own, i, dn) && Addr(m, i, k) != 0 && !(IND < k <= IND + dn)
    ensures 0 < Addr(m, i, k) < sb.size && Used(sb, m.blk, Addr(m, i, k))
    ensures Addr(m, i, k) in own && Released(own, own - {Addr(m, i, k)}, i, k, k + 1)
  {
    hide Used;
  }

  lemma NoneReleased(sb: Super, m: Image, own: Owner, i: int, k: int)
    requires Consistent(sb, m, own) && Addr(m, i, k) == 0
    ensures Released(own, own, i, k, k + 1)
  {
  }

  lemma ReleasedTrans(a: Owner, b: Owner, c: Owner, i: int, lo: int, mid: int, hi: int)
    requires Released(a, b, i, lo, mid) && Released(b, c, i, mid, hi) && lo <= mid <= hi
    ensures Released(a, c, i, lo, hi)
  {
  }

  /** With all slots of i empty and released, dropping its size leaves every other file as it was. */
  lemma Truncated(sb: Super, m: Image, own0: Owner, n: Image, own: Owner, i: int)
    requires Consistent(sb, m, own0) && Consistent(sb, n, own) && NoHoles(m) && 0 <= i < |m.ino|
    requires Kept(m, n, i) && Released(own0, own, i, 0, NSLOTS)
    requires forall j :: 0 <= j < |m.ino| && j != i ==> n.ino[j] == m.ino[j]
    ensures var o := n.(ino := n.ino[i := n.ino[i].(size := 0)]);
            && Consistent(sb, o, own) && NoHoles(o)
            && (forall j, k {:trigger Addr(o, j, k)} :: Addr(o, j, k) == Addr(n, j, k))
            && (forall b :: 0 <= b < sb.size ==>
                  (Used(sb, o.blk, b) <==> Used(sb, m.blk, b) && !(b in own0 && own0[b].0 == i)))
            && (forall j :: 0 <= j < |m.ino| && j != i ==> Content(o, j) == Content(m, j))
  {
    var o := n.(ino := n.ino[i := n.ino[i].(size := 0)]);
    SizeFrame(sb, n, own, i, 0);
    assert Kept(m, o, i);
    forall j | 0 <= j < |m.ino|
      ensures HoleFree(o, j)
      ensures j != i ==> Content(o, j) == Content(m, j)
    {
      if j != i {
        KeptContent(sb, m, o, own0, i, j);
      }
    }
    TruncatedBits(sb, m, own0, o, own, i);
  }

  lemma TruncatedBits(sb: Super, m: Image, own0: Owner, o: Image, own: Owner, i: int)
    requires Consistent(sb, m, own0) && Consistent(sb, o, own) && Released(own0, own, i, 0, NSLOTS)
    ensures forall b :: 0 <= b < sb.size ==>
      (Used(sb, o.blk, b) <==> Used(sb, m.blk, b) && !(b in own0 && own0[b].0 == i))
  {
    assert forall b :: b in own0 ==> 0 <= own0[b].1 < NSLOTS;
  }

  lemma SliceJoin<T>(c: seq<T>, a: nat, b: nat, d: nat)
    requires a <= b <= d <= |c|
    ensures c[a..b] + c[b..d] == c[a..d]
  {
  }

  /** One turn of readi's loop on values. */
  lemma ReadTurn(sb: Super, m: Image, own: Owner, i: int, off: nat, tot: nat, w: nat)
    requires Consistent(sb, m, own) && 0 <= i < |m.ino| && NoHoles(m)
    requires 0 < w && off + tot + w <= m.ino[i].size && (off + tot) % 512 + w <= BSIZE
    ensures (off + tot) / 512 < MAXFILE
    ensures var a, o, c := BlockOf(m, i, (off + tot) / 512), (off + tot) % 512, Content(m, i);
            && 0 < a < |m.blk| && |m.blk[a]| == BSIZE
            && c[off..off + tot] + m.blk[a][o..o + w] == c[off..off + tot + w]
  {
    hide Owns, ByteAt, Content, HoleFree, Addr;
    ReadChunk(sb, m, own, i, off + tot, w);
    SliceJoin(Content(m, i), off, off + tot, off + tot + w);
  }

  lemma BooksOwns(sb: Super, m: Image, own: Owner, i: int)
    requires Consistent(sb, m, own)
    ensures Owns(sb, m, own, i, 0)
  {
  }

  lemma MetaUsed(sb: Super, m: Image, own: Owner)
    requires Consistent(sb, m, own)
    ensures forall x :: 0 <= x < sb.datastart ==> Used(sb, m.blk, x)
  {
  }

  lemma BitmapIndex(b: int, bi: int)
    requires b % 4096 == 0 && 0 <= bi < 4096
    ensures (b + bi) / 4096 == b / 4096 && (b + bi) % 4096 == bi && (b + bi) % 8 == bi % 8
  {
    var q := b / 4096;
    Digits4096(q, bi);
    Digits8(512 * q + bi / 8, bi % 8);
    assert b + bi == 4096 * q + bi == 8 * (512 * q + bi / 8) + bi % 8;
  }

  lemma BitOfByte(b: nat)
    ensures b % 4096 % 8 == b % 8
  {
    BitmapIndex(b - b % 4096, b % 4096);
  }

  lemma Digits4096(q: int, r: int)
    requires 0 <= r < 4096
    ensures (4096 * q + r) / 4096 == q && (4096 * q + r) % 4096 == r
  {
  }

  lemma Digits8(q: int, r: int)
    requires 0 <= r < 8
    ensures (8 * q + r) % 8 == r
  {
  }

  lemma TruncStart(sb: Super, m: Image, own: Owner, i: int)
    requires Consistent(sb, m, own)
    ensures Shape(sb, m) && Owns(sb, m, own, i, 0)
    ensures Kept(m, m, i) && SameSlots(m, m) && Released(own, own, i, IND + 1, IND + 1)
  {
  }

  /** The entries released first and the indirect block last make up the tail of the slots. */
  lemma ReleasedTail(a: Owner, b: Owner, c: Owner, i: int)
    requires Released(a, b, i, IND + 1, NSLOTS) && Released(b, c, i, IND, IND + 1)
    ensures Released(a, c, i, IND, NSLOTS)
  {
  }

  lemma FreesNone(sb: Super, blk: seq<Block>)
    requires Sized(sb, blk) && forall x :: 0 <= x < sb.size ==> Used(sb, blk, x)
    ensures Frees(sb, blk) == []
  {
    hide Used;
    FreeFromSkip(sb, blk, 0, sb.size);
  }

  lemma NoEntry(sb: Super, m: Image, own: Owner, i: int, e: nat)
    requires Shape(sb, m) && Owns(sb, m, own, i, e) && Addr(m, i, IND + 1 + e) == 0
    ensures Kept(m, m, i) && SameSlots(m, m) && Released(own, own, i, IND + 1 + e, IND + 2 + e)
  {
    hide Addr, Used;
  }

  lemma NoTail(sb: Super, m: Image, own: Owner, i: int)
    requires Consistent(sb, m, own) && 0 <= i < |m.ino| && Addr(m, i, IND) == 0
    ensures Kept(m, m, i) && Released(own, own, i, IND, NSLOTS) && forall k :: IND <= k < NSLOTS ==> Addr(m, i, k) == 0
  {
    hide Used, Addr;
    forall k | IND < k < NSLOTS
      ensures Addr(m, i, k) == 0
    {
      EntryAddr(sb, m, own, i, k - IND - 1);
    }
  }

  // ----- the log_write calls of a transaction -----

  /** The blocks a list of writes goes to. */
  function Addrs(t: seq<LogDisk.Write>): set<nat> {
    if t == [] then {} else Addrs(t[..|t| - 1]) + {t[|t| - 1].addr}
  }

  lemma TraceSnoc(base: seq<Block>, t: seq<LogDisk.Write>, b: nat, data: Block)
    requires b < |base|
    ensures Addrs(t + [LogDisk.Write(b, data)]) == Addrs(t) + {b}
    ensures LogDisk.Apply(base, t + [LogDisk.Write(b, data)]) == LogDisk.Apply(base, t)[b := data]
  {
    var u := t + [LogDisk.Write(b, data)];
    assert u[..|u| - 1] == t;
  }

  class FileSys {
    const sb: Super
    var blk: seq<Block>
    var mem: seq<Dinode>
    var drivers: set<int>
    ghost var own: Owner
    /** What the inode blocks say. */
    ghost var dsk: seq<Dinode>
    /** blk when the transaction began, and its log_write calls since. */
    ghost var base: seq<Block>
    ghost var trace: seq<LogDisk.Write>

    function Img(): Image
      reads this
    {
      Image(blk, mem)
    }

    /** The blocks the transaction has logged. */
    ghost function Logged(): set<int>
      reads this
    {
      Addrs(trace)
    }

    /** Every change to a block since the transaction began went through log_write. */
    ghost predicate Stored()
      reads this`blk, this`dsk, this`base, this`trace
    {
      && Sized(sb, blk)
      && Stores(sb, blk, dsk)
      && blk == LogDisk.Apply(base, trace)
      && forall w :: w in trace ==> sb.inodestart <= w.addr < sb.size
    }

    ghost predicate Books()
      reads this
    {
      Consistent(sb, Img(), own) && Stored()
    }

    ghost predicate Valid()
      reads this
    {
      && Books()
      && NoHoles(Img())
      && dsk == mem
      && forall j :: 0 <= j < |mem| ==> Fits(mem[j])
    }

    lemma StoredSize()
      requires Stored()
      ensures |dsk| == sb.ninodes
    {
    }

    /** A file system on blocks whose inodes are all cached. */
    constructor (sb: Super, blk: seq<Block>, mem: seq<Dinode>, drivers: set<int>, ghost own: Owner)
      requires Consistent(sb, Image(blk, mem), own) && Stores(sb, blk, mem)
      ensures Books() && this.sb == sb && Img() == Image(blk, mem) && Logged() == {}
      ensures this.own == own && this.drivers == drivers && dsk == mem && base == blk && trace == []
      ensures NoHoles(Image(blk, mem)) && (forall j :: 0 <= j < |mem| ==> Fits(mem[j])) ==> Valid()
    {
      this.sb, this.blk, this.mem, this.drivers, this.own := sb, blk, mem, drivers, own;
      dsk, base, trace := mem, blk, [];
    }

    /** begin_op, as far as this layer sees it: a transaction that has logged nothing yet. */
    method BeginTransaction()
      requires Stored()
      modifies this`base, this`trace
      ensures Stored() && base == blk && trace == []
    {
      base, trace := blk, [];
    }

    /** The buffer of block b gets new content, and log_write is called for it. */
    method LogWrite(b: nat, data: Block)
      requires Stored() && sb.bmapstart <= b < sb.size && |data| == BSIZE
      modifies this`blk, this`trace
      ensures Stored() && blk == old(blk)[b := data] && Logged() == old(Logged()) + {b}
    {
      hide Stores, Addrs, LogDisk.Apply;
      StoresFrame(sb, blk, dsk, b, data);
      TraceSnoc(base, trace, b, data);
      blk := blk[b := data];
      trace := trace + [LogDisk.Write(b, data)];
    }

    /** The first free block under one bitmap block. */
    method ScanBitmap(b: nat) returns (r: Option<nat>)
      requires Shape(sb, Img()) && b % 4096 == 0 && b < sb.size
      ensures r.Some? ==>
        && b <= r.value < sb.size && r.value < b + BPB && !Used(sb, blk, r.value)
        && (forall x :: b <= x < r.value ==> Used(sb, blk, x))
      ensures r.None? ==> forall x :: b <= x < b + BPB && x < sb.size ==> Used(sb, blk, x)
    {
      var bp := blk[BBlock(sb, b)];
      var bi := 0;
      while bi < BPB && b + bi < sb.size
        invariant 0 <= bi <= BPB
        invariant forall x :: b <= x < b + bi && x < sb.size ==> Used(sb, blk, x)
      {
        BitmapIndex(b, bi);
        if !Bit(bp[bi / 8], bi % 8) {
          assert !Used(sb, blk, b + bi);
          return Some(b + bi);
        }
        bi := bi + 1;
      }
      return None;
    }

    /** Mark a free block in its bitmap block and zero it. */
    method TakeBlock(a: nat)
      requires Shape(sb, Img()) && Stored() && sb.datastart <= a < sb.size
      modifies this`blk, this`trace
      ensures Stored() && blk == Allocated(sb, old(blk), a) && Logged() == old(Logged()) + {BBlock(sb, a), a}
    {
      hide Stores, Addrs, Bit, SetBit, ClearBit, Used;
      var bp := blk[BBlock(sb, a)];
      bp := bp[a % 4096 / 8 := SetBit(bp[a % 4096 / 8], a % 8)];
      LogWrite(BBlock(sb, a), bp);
      LogWrite(a, Zero());
    }

    /** First free block, marked and zeroed; panics exactly when every block is in use. */
    method Balloc() returns (r: Option<nat>)
      requires Shape(sb, Img()) && Stored()
      requires forall x :: 0 <= x < sb.datastart ==> Used(sb, blk, x)
      modifies this`blk, this`trace
      ensures Stored()
      ensures r.None? <==> forall x :: 0 <= x < sb.size ==> Used(sb, old(blk), x)
      ensures r.None? ==> Frees(sb, blk) == [] && blk == old(blk) && trace == old(trace)
      ensures r.Some? ==>
        && sb.datastart <= r.value < sb.size && !Used(sb, old(blk), r.value)
        && blk == Allocated(sb, old(blk), r.value)
        && Frees(sb, old(blk)) == [r.value] + Frees(sb, blk)
        && Logged() == old(Logged()) + {BBlock(sb, r.value), r.value}
    {
      hide Stores, Addrs, Bit, SetBit, ClearBit, Used, Allocated, Frees, Stored;
      var b := 0;
      while b < sb.size
        invariant 0 <= b && b % 4096 == 0
        invariant Stored() && blk == old(blk) && trace == old(trace)
        invariant forall x :: 0 <= x < b && x < sb.size ==> Used(sb, blk, x)
      {
        var s := ScanBitmap(b);
        if s.Some? {
          var a := s.value;
          TakeBlock(a);
          AllocatedEffect(sb, old(blk), a);
          FreesTake(sb, old(blk), blk, a);
          return Some(a);
        }
        b := b + BPB;
      }
      FreesNone(sb, blk);
      return None;
    }

    /** Clear the bit of b; panics exactly when it is already clear. */
    method Bfree(b: nat) returns (ok: bool)
      requires Shape(sb, Img()) && Stored() && b < sb.size
      modifies this`blk, this`trace
      ensures Stored()
      ensures ok <==> Used(sb, old(blk), b)
      ensures ok ==> blk == MarkBit(sb, old(blk), b, false) && Logged() == old(Logged()) + {BBlock(sb, b)}
      ensures !ok ==> blk == old(blk) && trace == old(trace)
    {
      hide Bit, ClearBit, SetBit, Stores, Addrs;
      BitOfByte(b);
      var bp := blk[BBlock(sb, b)];
      var bi := b % 4096;
      if !Bit(bp[bi / 8], bi % 8) {
        return false;
      }
      bp := bp[bi / 8 := ClearBit(bp[bi / 8], bi % 8)];
      LogWrite(BBlock(sb, b), bp);
      return true;
    }

    /** Copy the in-memory inode into its block: no other inode and no file changes. */
    method Iupdate(i: nat)
      requires Books() && i < |mem| && Fits(mem[i])
      modifies this`blk, this`dsk, this`trace
      ensures Books() && dsk == old(dsk)[i := mem[i]] && Logged() == old(Logged()) + {IBlock(sb, i)}
      ensures SameSlots(old(Img()), Img()) && (old(NoHoles(Img())) ==> NoHoles(Img()))
      ensures forall x :: 0 <= x < sb.size ==> (Used(sb, blk, x) <==> Used(sb, old(blk), x))
      ensures forall j :: 0 <= j < |mem| ==> Content(Img(), j) == Content(old(Img()), j)
    {
      hide Addrs, Owns, NoHoles, Content, SameSlots, Stores, PutInode, IBlock, Used, LogDisk.Apply;
      InodeBlock(sb, blk, dsk, i);
      var b, data := IBlock(sb, i), PutInode(blk[IBlock(sb, i)], i % 8, mem[i]);
      StoresUpdate(sb, blk, dsk, i, mem[i]);
      HeadContent(sb, Img(), own, Image(blk[b := data], mem));
      TraceSnoc(base, trace, b, data);
      blk := blk[b := data];
      dsk := dsk[i := mem[i]];
      trace := trace + [LogDisk.Write(b, data)];
    }

    /** ilock's read of an inode that is not in memory: what the last iupdate stored. */
    method LoadInode(i: nat)
      requires Stored() && i < |mem| == sb.ninodes
      modifies this`mem
      ensures mem == old(mem)[i := dsk[i]]
      ensures old(Valid()) ==> Valid() && mem == old(mem)
    {
      hide GetInode;
      mem := mem[i := DiskInode(sb, blk, i)];
      assert dsk[i] == DiskInode(sb, blk, i);
      assert old(Valid()) ==> mem == old(mem);
    }

    /** balloc into an empty direct slot, or into the indirect-block slot. */
    method FillSlot(i: nat, k: nat) returns (ok: bool)
      requires Books() && i < |mem| && k <= IND && Addr(Img(), i, k) == 0
      modifies this`blk, this`mem, this`own, this`trace
      ensures Books()
      ensures ok <==> |Frees(sb, old(blk))| > 0
      ensures !ok ==> Img() == old(Img()) && own == old(own)
      ensures ok ==>
        && Kept(old(Img()), Img(), -1) && Filled(sb, old(Img()), Img(), i, [k])
        && var b := Addr(Img(), i, k);
        && b != 0 && !Used(sb, old(blk), b) && blk[b] == Zero()
        && own == old(own)[b := (i, k)]
        && mem == old(mem)[i := old(mem)[i].(addrs := old(mem)[i].addrs[k := b])]
        && Logged() == old(Logged()) + FillLog(sb, old(Img()), i, [k])
    {
      hide Used, Addr, Allocated, Kept, Frees, Filled, FillLog, Stored;
      ghost var m := Img();
      MetaUsed(sb, m, own);
      var r := Balloc();
      if r.None? {
        return false;
      }
      FillDirectFills(sb, m, own, i, k, r.value);
      mem := mem[i := mem[i].(addrs := mem[i].addrs[k := r.value])];
      own := own[r.value := (i, k)];
      assert Img() == FillDirect(sb, m, i, k, r.value);
      return true;
    }

    /** balloc into an empty entry of the indirect block. */
    method FillIndirect(i: nat, e: nat) returns (ok: bool)
      requires Books() && i < |mem| && e < NINDIRECT
      requires Addr(Img(), i, IND) != 0 && Addr(Img(), i, IND + 1 + e) == 0
      modifies this`blk, this`own, this`trace
      ensures Books()
      ensures ok <==> |Frees(sb, old(blk))| > 0
      ensures !ok ==> Img() == old(Img()) && own == old(own)
      ensures ok ==>
        && Kept(old(Img()), Img(), -1) && Filled(sb, old(Img()), Img(), i, [IND + 1 + e])
        && var b := Addr(Img(), i, IND + 1 + e);
        && b != 0 && !Used(sb, old(blk), b) && blk[b] == Zero()
        && own == old(own)[b := (i, IND + 1 + e)]
        && Logged() == old(Logged()) + FillLog(sb, old(Img()), i, [IND + 1 + e])
    {
      hide Used, Addr, PutWord, Allocated, Kept, Frees, Filled, FillLog, Stores, Owns, Addrs;
      ghost var m := Img();
      MetaUsed(sb, m, own);
      EntryAddr(sb, m, own, i, e);
      var p := mem[i].addrs[IND];
      var bp := blk[p];
      var r := Balloc();
      if r.None? {
        return false;
      }
      FillEntryFills(sb, m, own, i, e, r.value);
      LogWrite(p, PutWord(bp, e, r.value));
      own := own[r.value := (i, IND + 1 + e)];
      assert Img() == FillEntry(sb, m, i, e, r.value);
      return true;
    }

    /**
    The address of the bn-th block of inode i, allocating it (and the indirect block) if missing;
    panics exactly when bn is out of range or the free blocks do not suffice.
    */
    method Bmap(i: nat, bn: nat) returns (r: Option<nat>)
      requires Books() && i < |mem|
      modifies this`blk, this`mem, this`own, this`trace
      ensures Books()
      ensures bn >= MAXFILE ==> r.None? && Img() == old(Img())
      ensures r.Some? <==> bn < MAXFILE && |Needs(old(Img()), i, bn)| <= |Frees(sb, old(blk))|
      ensures bn < MAXFILE && BlockOf(old(Img()), i, bn) != 0 ==>
        r.Some? && Img() == old(Img()) && own == old(own) && trace == old(trace)
      ensures bn < MAXFILE && r.None? ==> Frees(sb, blk) == []
      ensures r.Some? ==>
        && Kept(old(Img()), Img(), -1) && Filled(sb, old(Img()), Img(), i, Needs(old(Img()), i, bn))
        && r.value == BlockOf(Img(), i, bn) != 0
        && (BlockOf(old(Img()), i, bn) == 0 ==> !Used(sb, old(blk), r.value) && blk[r.value] == Zero())
        && Logged() == old(Logged()) + FillLog(sb, old(Img()), i, Needs(old(Img()), i, bn))
        && mem == old(mem)[i := old(mem)[i].(addrs := mem[i].addrs)]
    {
      hide Addr, Owns, Kept, Used, Filled, FillLog, Frees, Stored;
      if bn < NDIRECT {
        r := BmapDirect(i, bn);
        return r;
      }
      var e := bn - NDIRECT;
      if e < NINDIRECT {
        r := BmapIndirect(i, e);
        return r;
      }
      return None;
    }

    /** bmap among the direct blocks. */
    method BmapDirect(i: nat, bn: nat) returns (r: Option<nat>)
      requires Books() && i < |mem| && bn < NDIRECT
      modifies this`blk, this`mem, this`own, this`trace
      ensures Books()
      ensures r.Some? <==> |Needs(old(Img()), i, bn)| <= |Frees(sb, old(blk))|
      ensures BlockOf(old(Img()), i, bn) != 0 ==>
        r.Some? && Img() == old(Img()) && own == old(own) && trace == old(trace)
      ensures r.None? ==> Frees(sb, blk) == []
      ensures r.Some? ==>
        && Kept(old(Img()), Img(), -1) && Filled(sb, old(Img()), Img(), i, Needs(old(Img()), i, bn))
        && r.value == BlockOf(Img(), i, bn) != 0
        && (BlockOf(old(Img()), i, bn) == 0 ==> !Used(sb, old(blk), r.value) && blk[r.value] == Zero())
        && Logged() == old(Logged()) + FillLog(sb, old(Img()), i, Needs(old(Img()), i, bn))
        && mem == old(mem)[i := old(mem)[i].(addrs := mem[i].addrs)]
    {
      hide Addr, Owns, Kept, Used, Filled, FillLog, Frees, Stored;
      ghost var m := Img();
      DirectAddr(m, i, bn);
      KeptSelf(m, -1);
      FilledNone(sb, m, i);
      NothingLogged(sb, m, i, bn);
      var addr := mem[i].addrs[bn];
      assert Needs(m, i, bn) == if addr == 0 then [bn] else [];
      if addr == 0 {
        var ok := FillSlot(i, bn);
        if !ok {
          return None;
        }
        DirectAddr(Img(), i, bn);
        addr := mem[i].addrs[bn];
      }
      SlotRange(sb, Img(), own, i, bn);
      return Some(addr);
    }

    /** bmap beyond the direct blocks. */
    method BmapIndirect(i: nat, e: nat) returns (r: Option<nat>)
      requires Books() && i < |mem| && e < NINDIRECT
      modifies this`blk, this`mem, this`own, this`trace
      ensures Books()
      ensures r.Some? <==> |Needs(old(Img()), i, NDIRECT + e)| <= |Frees(sb, old(blk))|
      ensures BlockOf(old(Img()), i, NDIRECT + e) != 0 ==>
        r.Some? && Img() == old(Img()) && own == old(own) && trace == old(trace)
      ensures r.None? ==> Frees(sb, blk) == []
      ensures r.Some? ==>
        && Kept(old(Img()), Img(), -1) && Filled(sb, old(Img()), Img(), i, Needs(old(Img()), i, NDIRECT + e))
        && r.value == BlockOf(Img(), i, NDIRECT + e) != 0
        && (BlockOf(old(Img()), i, NDIRECT + e) == 0 ==> !Used(sb, old(blk), r.value) && blk[r.value] == Zero())
        && Logged() == old(Logged()) + FillLog(sb, old(Img()), i, Needs(old(Img()), i, NDIRECT + e))
        && mem == old(mem)[i := old(mem)[i].(addrs := mem[i].addrs)]
    {
      hide Addr, Kept, Owns, Used, Filled, FillLog, Frees, Stored, Needs;
      ghost var m := Img();
      EntryAddr(sb, m, own, i, e);
      ghost var s := if Addr(m, i, IND) == 0 then [IND] else [];
      ghost var t := if Addr(m, i, IND + 1 + e) == 0 then [IND + 1 + e] else [];
      NeedsOf(m, i, e, s, t);
      var ok := LoadIndirect(i);
      if !ok {
        return None;
      }
      ghost var n := Img();
      FilledOld(sb, m, n, i, s, IND + 1 + e);
      FilledRest(sb, m, n, i, s);
      r := BmapEntry(i, e);
      if r.Some? {
        KeptTrans(sb, m, old(own), n, Img(), -1);
        NeedsTrans(sb, m, n, Img(), i, e, s, t);
        FilledFresh(sb, m, Img(), i, s + t, IND + 1 + e);
      }
    }

    /** An entry of the indirect block, allocated if it is empty. */
    method BmapEntry(i: nat, e: nat) returns (r: Option<nat>)
      requires Books() && i < |mem| && e < NINDIRECT && Addr(Img(), i, IND) != 0
      modifies this`blk, this`own, this`trace
      ensures Books()
      ensures Addr(old(Img()), i, IND + 1 + e) != 0 ==>
        r.Some? && Img() == old(Img()) && own == old(own) && trace == old(trace)
      ensures r.Some? <==> Addr(old(Img()), i, IND + 1 + e) != 0 || |Frees(sb, old(blk))| > 0
      ensures r.None? ==> Frees(sb, blk) == []
      ensures r.Some? ==>
        && Kept(old(Img()), Img(), -1)
        && Filled(sb, old(Img()), Img(), i, if Addr(old(Img()), i, IND + 1 + e) == 0 then [IND + 1 + e] else [])
        && r.value == Addr(Img(), i, IND + 1 + e) != 0
        && (Addr(old(Img()), i, IND + 1 + e) == 0 ==> blk[r.value] == Zero())
        && Logged() == old(Logged())
             + FillLog(sb, old(Img()), i, if Addr(old(Img()), i, IND + 1 + e) == 0 then [IND + 1 + e] else [])
    {
      hide Addr, Kept, Owns, Used, Word, Filled, FillLog, Frees, Stored;
      ghost var n := Img();
      EntryAddr(sb, n, own, i, e);
      KeptSelf(n, -1);
      FilledNone(sb, n, i);
      NothingLogged(sb, n, i, 0);
      var p := mem[i].addrs[IND];
      var addr := Word(blk[p], e);
      if addr == 0 {
        var ok := FillIndirect(i, e);
        if !ok {
          return None;
        }
        EntryAddr(sb, Img(), own, i, e);
        addr := Word(blk[p], e);
      }
      SlotRange(sb, Img(), own, i, IND + 1 + e);
      return Some(addr);
    }

    /** The indirect block, allocated if the inode has none yet. */
    method LoadIndirect(i: nat) returns (ok: bool)
      requires Books() && i < |mem|
      modifies this`blk, this`mem, this`own, this`trace
      ensures Books()
      ensures Addr(old(Img()), i, IND) != 0 ==> ok && Img() == old(Img()) && own == old(own) && trace == old(trace)
      ensures Addr(old(Img()), i, IND) == 0 ==> (ok <==> |Frees(sb, old(blk))| > 0)
      ensures !ok ==> Img() == old(Img())
      ensures ok ==>
        && Kept(old(Img()), Img(), -1) && Addr(Img(), i, IND) != 0
        && Filled(sb, old(Img()), Img(), i, if Addr(old(Img()), i, IND) == 0 then [IND] else [])
        && Logged() == old(Logged())
             + FillLog(sb, old(Img()), i, if Addr(old(Img()), i, IND) == 0 then [IND] else [])
        && mem == old(mem)[i := old(mem)[i].(addrs := mem[i].addrs)]
    {
      hide Owns, Kept, Used, Filled, FillLog, Frees, Stored;
      ghost var m := Img();
      DirectAddr(m, i, IND);
      KeptSelf(m, -1);
      FilledNone(sb, m, i);
      NothingLogged(sb, m, i, 0);
      if mem[i].addrs[IND] == 0 {
        ok := FillSlot(i, IND);
        return ok;
      }
      return true;
    }

    /** One turn of itrunc's first loop. */
    method DropSlot(i: nat, k: nat)
      requires Books() && i < |mem| && k < NDIRECT
      modifies this`blk, this`mem, this`own, this`trace
      ensures Books() && Kept(old(Img()), Img(), i)
      ensures Released(old(own), own, i, k, k + 1) && Logged() == old(Logged()) + FreedBits(sb, old(own), i, k, k + 1)
      ensures Addr(Img(), i, k) == 0
      ensures forall l :: 0 <= l < NSLOTS && l != k ==> Addr(Img(), i, l) == Addr(old(Img()), i, l)
      ensures mem == old(mem)[i := old(mem)[i].(addrs := mem[i].addrs)]
    {
      hide Used, Addr, MarkBit, Kept, Owns, Released, Stored, FreedBits;
      ghost var n := Img();
      KeptSelf(n, i);
      DirectAddr(n, i, k);
      if mem[i].addrs[k] != 0 {
        var b := mem[i].addrs[k];
        BooksOwns(sb, n, own, i);
        ReleasedOne(sb, n, own, 0, i, k);
        FreedOne(sb, own, b, i, k, k + 1);
        DropDirectOwns(sb, n, own, i, k, 0);
        forall l
          ensures Addr(DropDirect(sb, n, i, k), i, l) == if l == k then 0 else Addr(n, i, l)
        {
          DropDirectAddr(sb, n, own, i, k, 0, i, l);
        }
        var ok := Bfree(b);
        mem := mem[i := mem[i].(addrs := mem[i].addrs[k := 0])];
        own := own - {b};
        assert Img() == DropDirect(sb, n, i, k);
      } else {
        NoneReleased(sb, n, own, i, k);
        FreedNone(sb, own, i, k, k + 1);
      }
    }

    /** The first loop of itrunc. */
    method TruncDirect(i: nat)
      requires Books() && i < |mem|
      modifies this`blk, this`mem, this`own, this`trace
      ensures Books() && Kept(old(Img()), Img(), i)
      ensures Released(old(own), own, i, 0, NDIRECT) && Logged() == old(Logged()) + FreedBits(sb, old(own), i, 0, NDIRECT)
      ensures forall k :: 0 <= k < NDIRECT ==> Addr(Img(), i, k) == 0
      ensures mem == old(mem)[i := old(mem)[i].(addrs := mem[i].addrs)]
    {
      hide Used, Bit, Word, Kept, Addr, Owns, Released, FreedBits;
      ghost var m := Img();
      KeptSelf(m, i);
      ReleasedNone(own, i);
      FreedEmpty(sb, own, i, 0);
      var k := 0;
      while k < NDIRECT
        invariant 0 <= k <= NDIRECT
        invariant Books() && Kept(m, Img(), i)
        invariant Released(old(own), own, i, 0, k) && Logged() == old(Logged()) + FreedBits(sb, old(own), i, 0, k)
        invariant forall l :: 0 <= l < k ==> Addr(Img(), i, l) == 0
        invariant |mem| == |old(mem)| && mem == old(mem)[i := old(mem)[i].(addrs := mem[i].addrs)]
      {
        ghost var n, nown := Img(), own;
        DropSlot(i, k);
        KeptTrans(sb, m, old(own), n, Img(), i);
        ReleasedTrans(old(own), nown, own, i, 0, k, k + 1);
        FreedTrans(sb, old(own), nown, i, 0, k, k + 1);
        k := k + 1;
      }
    }

    /** One turn of itrunc's second loop; a is the indirect block as read before the loop. */
    method DropEntry(i: nat, a: Block, e: nat)
      requires Shape(sb, Img()) && Stored() && i < |mem| && e < NINDIRECT && Owns(sb, Img(), own, i, e)
      requires |a| == BSIZE && Word(a, e) == Addr(Img(), i, IND + 1 + e)
      modifies this`blk, this`own, this`trace
      ensures Shape(sb, Img()) && Stored() && Owns(sb, Img(), own, i, e + 1) && Kept(old(Img()), Img(), i)
      ensures Released(old(own), own, i, IND + 1 + e, IND + 2 + e) && SameSlots(old(Img()), Img())
      ensures Logged() == old(Logged()) + FreedBits(sb, old(own), i, IND + 1 + e, IND + 2 + e)
    {
      hide Addr, Owns, Kept, Released, SameSlots, MarkBit, Used, Stored, FreedBits;
      ghost var n := Img();
      if Word(a, e) != 0 {
        var b := Word(a, e);
        ReleasedOne(sb, n, own, e, i, IND + 1 + e);
        DropEntryOwns(sb, n, own, i, e);
        FreedOne(sb, own, b, i, IND + 1 + e, IND + 2 + e);
        var ok := Bfree(b);
        own := own - {b};
        assert Img() == Image(MarkBit(sb, n.blk, b, false), n.ino);
      } else {
        SkipEntryOwns(sb, n, own, i, e);
        NoEntry(sb, n, own, i, e);
        FreedNone(sb, own, i, IND + 1 + e, IND + 2 + e);
      }
    }

    /** The entries of the indirect block, each freed once. */
    method TruncEntries(i: nat)
      requires Books() && i < |mem| && Addr(Img(), i, IND) != 0
      modifies this`blk, this`own, this`trace
      ensures Shape(sb, Img()) && Stored() && Owns(sb, Img(), own, i, NINDIRECT) && Kept(old(Img()), Img(), i)
      ensures Released(old(own), own, i, IND + 1, NSLOTS) && SameSlots(old(Img()), Img())
      ensures Logged() == old(Logged()) + FreedBits(sb, old(own), i, IND + 1, NSLOTS)
    {
      hide Addr, Owns, Kept, Released, Word, SameSlots, Consistent, FreedBits, Stored, Used;
      ghost var m := Img();
      TruncStart(sb, m, own, i);
      FreedEmpty(sb, own, i, IND + 1);
      EntryAddr(sb, m, own, i, 0);
      var a := blk[mem[i].addrs[IND]];
      var e := 0;
      while e < NINDIRECT
        invariant 0 <= e <= NINDIRECT
        invariant Shape(sb, Img()) && Stored() && Owns(sb, Img(), own, i, e) && Kept(m, Img(), i)
        invariant Released(old(own), own, i, IND + 1, IND + 1 + e) && SameSlots(m, Img())
        invariant Logged() == old(Logged()) + FreedBits(sb, old(own), i, IND + 1, IND + 1 + e)
      {
        ghost var n, nown := Img(), own;
        EntryAddr(sb, m, old(own), i, e);
        SameSlotsAt(m, n, i, IND + 1 + e);
        DropEntry(i, a, e);
        KeptTrans(sb, m, old(own), n, Img(), i);
        SameSlotsTrans(m, n, Img());
        ReleasedTrans(old(own), nown, own, i, IND + 1, IND + 1 + e, IND + 2 + e);
        FreedTrans(sb, old(own), nown, i, IND + 1, IND + 1 + e, IND + 2 + e);
        e := e + 1;
      }
    }

    /** The second half of itrunc: the entries, then the indirect block itself. */
    method TruncIndirect(i: nat)
      requires Books() && i < |mem|
      modifies this`blk, this`mem, this`own, this`trace
      ensures Books() && Kept(old(Img()), Img(), i)
      ensures Released(old(own), own, i, IND, NSLOTS) && Logged() == old(Logged()) + FreedBits(sb, old(own), i, IND, NSLOTS)
      ensures forall k :: 0 <= k < NSLOTS ==> Addr(Img(), i, k) == if k < IND then Addr(old(Img()), i, k) else 0
      ensures mem == old(mem)[i := old(mem)[i].(addrs := mem[i].addrs)]
    {
      hide Addr, Owns, Kept, Released, SameSlots, Used, Stored, FreedBits;
      ghost var m := Img();
      DirectAddr(m, i, IND);
      if mem[i].addrs[IND] != 0 {
        TruncEntries(i);
        ghost var o, oown := Img(), own;
        SameSlotsAt(m, o, i, IND);
        DropIndirect(i);
        KeptTrans(sb, m, old(own), o, Img(), i);
        ReleasedTail(old(own), oown, own, i);
        FreedTail(sb, old(own), oown, i);
        forall k
          ensures Addr(o, i, k) == Addr(m, i, k)
        {
          SameSlotsAt(m, o, i, k);
        }
      } else {
        NoTail(sb, m, own, i);
        FreedNone(sb, own, i, IND, NSLOTS);
      }
    }

    /** Free the indirect block once its entries are freed. */
    method DropIndirect(i: nat)
      requires Shape(sb, Img()) && Stored() && Owns(sb, Img(), own, i, NINDIRECT) && i < |mem| && Addr(Img(), i, IND) != 0
      modifies this`blk, this`mem, this`own, this`trace
      ensures Books() && Kept(old(Img()), Img(), i)
      ensures Released(old(own), own, i, IND, IND + 1) && Logged() == old(Logged()) + FreedBits(sb, old(own), i, IND, IND + 1)
      ensures forall k :: 0 <= k < NSLOTS ==> Addr(Img(), i, k) == if k < IND then Addr(old(Img()), i, k) else 0
      ensures mem == old(mem)[i := old(mem)[i].(addrs := mem[i].addrs)]
    {
      hide Used, Addr, MarkBit, Kept, Owns, Released, Stored, FreedBits;
      ghost var o := Img();
      var p := mem[i].addrs[IND];
      DirectAddr(o, i, IND);
      ReleasedOne(sb, o, own, NINDIRECT, i, IND);
      FreedOne(sb, own, p, i, IND, IND + 1);
      DropDirectOwns(sb, o, own, i, IND, NINDIRECT);
      forall l
        ensures Addr(DropDirect(sb, o, i, IND), i, l) == if l >= IND then 0 else Addr(o, i, l)
      {
        DropDirectAddr(sb, o, own, i, IND, NINDIRECT, i, l);
      }
      var ok := Bfree(p);
      mem := mem[i := mem[i].(addrs := mem[i].addrs[IND := 0])];
      own := own - {p};
      assert Img() == DropDirect(sb, o, i, IND);
    }

    /**
    Truncate inode i: every block it owns is freed, each exactly once and without
    ever meeting a free one, and no other file is touched.
    */
    method Itrunc(i: nat)
      requires Valid() && i < |mem|
      modifies this`blk, this`mem, this`own, this`dsk, this`trace
      ensures Valid()
      ensures Released(old(own), own, i, 0, NSLOTS)
      ensures Logged() == old(Logged()) + FreedBits(sb, old(own), i, 0, NSLOTS) + {IBlock(sb, i)}
      ensures forall k :: 0 <= k < NSLOTS ==> Addr(Img(), i, k) == 0
      ensures mem == old(mem)[i := old(mem)[i].(addrs := mem[i].addrs, size := 0)]
      ensures forall b :: 0 <= b < sb.size ==>
        (Used(sb, blk, b) <==> Used(sb, old(blk), b) && !(b in old(own) && old(own)[b].0 == i))
      ensures forall j :: 0 <= j < |mem| && j != i ==> Content(Img(), j) == Content(old(Img()), j)
    {
      hide Owns, Kept, Used, Content, NoHoles, Released, Stored, FreedBits;
      ghost var m := Img();
      TruncDirect(i);
      ghost var n, nown := Img(), own;
      TruncIndirect(i);
      KeptTrans(sb, m, old(own), n, Img(), i);
      ReleasedTrans(old(own), nown, own, i, 0, IND, NSLOTS);
      FreedTrans(sb, old(own), nown, i, 0, IND, NSLOTS);
      Truncated(sb, m, old(own), Img(), own, i);
      mem := mem[i := mem[i].(size := 0)];
      StillFits(sb, Img(), own, i, old(mem)[i]);
      Iupdate(i);
    }

    /** Read n bytes at off; on a file without holes this changes nothing. */
    method Readi(i: nat, off: nat, n: nat) returns (r: Io, dst: seq<int>)
      requires Valid() && i < |mem| && off < UINT && n < UINT
      modifies this`blk, this`mem, this`own, this`trace
      ensures Valid() && Img() == old(Img()) && own == old(own) && trace == old(trace)
      ensures mem[i].typ == T_DEV ==> r == Dispatch(mem[i].major)
      ensures mem[i].typ != T_DEV && (off > mem[i].size || off + n >= UINT) ==> r == Err
      ensures mem[i].typ != T_DEV && off <= mem[i].size && off + n < UINT ==>
        && r == Count(|dst|)
        && dst == Content(Img(), i)[off..if off + n > mem[i].size then mem[i].size else off + n]
    {
      dst := [];
      if mem[i].typ == T_DEV {
        return Dispatch(mem[i].major), dst;
      }
      if off > mem[i].size || (off + n) % 0x1_0000_0000 < off {
        return Err, dst;
      }
      var len := n;
      if off + len > mem[i].size {
        len := mem[i].size - off;
      }
      dst := ReadBlocks(i, off, len);
      return Count(len), dst;
    }

    /** devsw: the driver of a device inode, if there is one. */
    function Dispatch(major: int): (r: Io)
      reads this`drivers
      ensures r == Device(major) <==> 0 <= major < NDEV && major in drivers
      ensures r == Err <==> r != Device(major)
    {
      if major < 0 || major >= NDEV || major !in drivers then Err else Device(major)
    }

    /** One turn of readi's loop: bread the block, copy w bytes from offset o. */
    method ReadOne(i: nat, bn: nat, o: nat, w: nat) returns (chunk: seq<int>)
      requires Books() && i < |mem| && bn < MAXFILE && o + w <= BSIZE && BlockOf(Img(), i, bn) != 0
      modifies this`blk, this`mem, this`own, this`trace
      ensures Img() == old(Img()) && own == old(own) && trace == old(trace)
      ensures 0 < BlockOf(Img(), i, bn) < |blk| && chunk == blk[BlockOf(Img(), i, bn)][o..o + w]
    {
      assert BlockOf(Img(), i, bn) in own;
      var a := Bmap(i, bn);
      chunk := blk[a.value][o..o + w];
    }

    /** The loop of readi. */
    method ReadBlocks(i: nat, off: nat, n: nat) returns (dst: seq<int>)
      requires Valid() && i < |mem| && off + n <= mem[i].size
      modifies this`blk, this`mem, this`own, this`trace
      ensures Valid() && Img() == old(Img()) && own == old(own) && trace == old(trace)
      ensures dst == Content(Img(), i)[off..off + n]
    {
      hide Addr, Owns, NoHoles, BlockOf, Shape;
      ghost var m, c := Img(), Content(Img(), i);
      dst := [];
      var tot := 0;
      while tot < n
        invariant 0 <= tot <= n
        invariant Img() == m && own == old(own) && trace == old(trace)
        invariant dst == c[off..off + tot]
      {
        var o := (off + tot) % 512;
        var w := if n - tot < BSIZE - o then n - tot else BSIZE - o;
        ReadTurn(sb, m, own, i, off, tot, w);
        var chunk := ReadOne(i, (off + tot) / 512, o, w);
        dst := dst + chunk;
        tot := tot + w;
      }
    }

    /**
    Write src at off: a splice of the byte sequence, in memory and on disk alike.  It panics exactly
    when the free blocks do not suffice, and logs exactly the blocks that WriteiLog lists.
    */
    method Writei(i: nat, off: nat, src: seq<int>) returns (r: Io)
      requires Books() && i < |mem| && Fits(mem[i]) && off < UINT && |src| < UINT
      modifies this`blk, this`mem, this`own, this`dsk, this`trace
      ensures Books()
      ensures old(mem)[i].typ == T_DEV ==> r == old(Dispatch(mem[i].major))
      ensures old(mem)[i].typ != T_DEV ==>
        && !r.Device?
        && (r.Err? <==> off > old(mem)[i].size || off + |src| > MAXBYTES)
        && (r.Panic? <==> !r.Err? && !Room(sb, old(Img()), i, off / 512, BlocksSpanned(off, |src|)))
      ensures r.Err? || r.Device? ==>
        Img() == old(Img()) && own == old(own) && dsk == old(dsk) && trace == old(trace)
      ensures r.Panic? ==> Frees(sb, blk) == []
      ensures r.Count? ==>
        && r.n == |src| && |mem| == |old(mem)|
        && mem[i] == old(mem)[i].(size := mem[i].size, addrs := mem[i].addrs)
        && (forall j :: 0 <= j < |mem| && j != i ==> mem[j] == old(mem)[j])
        && Room(sb, old(Img()), i, off / 512, BlocksSpanned(off, |src|))
        && Logged() == old(Logged()) + WriteiLog(sb, old(Img()), i, off, |src|)
        // holes read as zeros
        && Content(Img(), i) == Splice(Content(old(Img()), i), off, src)
        && (forall j :: 0 <= j < |mem| && j != i ==> Content(Img(), j) == Content(old(Img()), j))
      ensures r.Count? && old(Valid()) ==> Valid()
      ensures r.Count? ==>
        && |dsk| == |old(dsk)| == |mem|
        && dsk == if off + |src| > old(mem)[i].size then old(dsk)[i := mem[i]] else old(dsk)
      // iupdate runs only on growth, so a slot of the inode filled below the size is not stored
      ensures r.Count? && old(dsk) == old(mem) ==>
        && |dsk| == |mem| && (forall j :: 0 <= j < |mem| && j != i ==> dsk[j] == mem[j])
        && (dsk[i] == mem[i] <==>
              off + |src| > old(mem)[i].size
              || forall k :: k in SpanNeeds(old(Img()), i, off / 512, BlocksSpanned(off, |src|)) ==> k > IND)
    {
      hide Owns, Written, NoHoles, Content, Splice, WriteLog, Used, Stored, Room, Filled, Frees, SpanNeeds, Fits;
      if mem[i].typ == T_DEV {
        return Dispatch(mem[i].major);
      }
      if off > mem[i].size || (off + |src|) % 0x1_0000_0000 < off {
        return Err;
      }
      if off + |src| > MAXBYTES {
        return Err;
      }
      var ok := WriteBlocks(i, off, src);
      if !ok {
        return Panic;
      }
      ghost var m, n := old(Img()), Img();
      StoredSize();
      WriteEnd(sb, m, old(own), n, own, i, off, src);
      var end := off + |src|;
      if |src| > 0 && end > mem[i].size {
        Grow(i, end, old(mem)[i]);
      } else {
        InodeKept(sb, m, old(own), n, i, off / 512, BlocksSpanned(off, |src|));
        if old(Valid()) {
          OverwriteNeeds(m, i, off, |src|);
        }
        assert Img() == n.(ino := n.ino[i := n.ino[i].(size := mem[i].size)]);
      }
      return Count(|src|);
    }

    /** The end of a writei that goes past the end of the file; d is the inode before it. */
    method Grow(i: nat, end: nat, ghost d: Dinode)
      requires Books() && i < |mem| && Fits(d) && end < UINT
      requires mem[i] == d.(size := mem[i].size, addrs := mem[i].addrs)
      modifies this`blk, this`mem, this`dsk, this`trace
      ensures Books() && mem == old(mem)[i := old(mem)[i].(size := end)] && Fits(mem[i])
      ensures dsk == old(dsk)[i := mem[i]] && Logged() == old(Logged()) + {IBlock(sb, i)}
      ensures NoHoles(Image(old(blk), mem)) ==> NoHoles(Img())
      ensures forall j :: 0 <= j < |mem| ==> Content(Img(), j) == Content(Image(old(blk), mem), j)
    {
      hide Owns, NoHoles, Content, Stored, Used, SameSlots, Fits;
      SizeFrame(sb, Img(), own, i, end);
      mem := mem[i := mem[i].(size := end)];
      assert Img() == old(Img()).(ino := mem);
      StillFits(sb, Img(), own, i, d);
      Iupdate(i);
    }

    /** One turn of writei's loop: the next w bytes of src into their block. */
    method WriteOne(ghost m: Image, ghost own0: Owner, i: nat, off: nat, src: seq<int>, tot: nat, w: nat,
                    ghost cnt: nat, ghost log0: set<int>)
      returns (ok: bool)
      requires Consistent(sb, m, own0) && Books() && i < |mem|
      requires 0 < w && tot + w <= |src| && off + |src| <= MAXBYTES && (off + tot) % 512 + w <= BSIZE
      requires Written(m, Img(), i, off, src, tot)
      requires (off + tot) / 512 == off / 512 + cnt && Filled(sb, m, Img(), i, SpanNeeds(m, i, off / 512, cnt))
      requires Logged() == log0 + WriteLog(sb, m, i, off / 512, cnt)
      modifies this`blk, this`mem, this`own, this`trace
      ensures Books()
      ensures ok <==> Room(sb, m, i, off / 512, cnt + 1)
      ensures !ok ==> Frees(sb, blk) == []
      ensures ok ==>
        && Written(m, Img(), i, off, src, tot + w)
        && mem == old(mem)[i := old(mem)[i].(addrs := mem[i].addrs)]
        && Filled(sb, m, Img(), i, SpanNeeds(m, i, off / 512, cnt + 1))
        && Logged() == log0 + WriteLog(sb, m, i, off / 512, cnt + 1)
    {
      hide Addr, Owns, Kept, Written, Filled, FillLog, WriteLog, Used, ByteAt, Room, Needs, SpanNeeds, Frees, Stores, Addrs;
      ghost var n, nown := Img(), own;
      var bn := (off + tot) / 512;
      RoomNext(sb, m, own0, n, i, off / 512, cnt);
      var a := Bmap(i, bn);
      if a.None? {
        return false;
      }
      ghost var o := Img();
      var at := (off + tot) % 512;
      SlotRange(sb, o, own, i, DataSlot(bn));
      var data := Overlay(blk[a.value], at, src[tot..tot + w]);
      FilledMaps(sb, n, o, i, bn);
      WriteStep(sb, m, own0, n, nown, o, own, i, off, src, tot, w);
      WriteLogStep(sb, m, own0, n, o, i, off / 512, cnt);
      StoreFills(sb, m, o, own, i, SpanNeeds(m, i, off / 512, cnt + 1), bn, data);
      LogWrite(a.value, data);
      assert Img() == Store(o, a.value, data);
      return true;
    }

    /** The loop of writei: the bytes reach their blocks, the size is not yet touched. */
    method WriteBlocks(i: nat, off: nat, src: seq<int>) returns (ok: bool)
      requires Books() && i < |mem| && off + |src| <= MAXBYTES
      modifies this`blk, this`mem, this`own, this`trace
      ensures Books()
      ensures ok <==> Room(sb, old(Img()), i, off / 512, BlocksSpanned(off, |src|))
      ensures !ok ==> Frees(sb, blk) == []
      ensures ok ==>
        && Written(old(Img()), Img(), i, off, src, |src|)
        && |mem| == |old(mem)| && mem == old(mem)[i := old(mem)[i].(addrs := mem[i].addrs)]
        && Filled(sb, old(Img()), Img(), i, SpanNeeds(old(Img()), i, off / 512, BlocksSpanned(off, |src|)))
        && Logged() == old(Logged()) + WriteLog(sb, old(Img()), i, off / 512, BlocksSpanned(off, |src|))
    {
      hide Addr, Owns, Written, Filled, Used, WriteLog, SpanNeeds, Frees, Stored;
      ghost var m := Img();
      ghost var f, cnt := off / 512, 0;
      WriteStart(sb, m, i, off, src);
      var tot := 0;
      while tot < |src|
        invariant 0 <= tot <= |src|
        invariant Books() && Written(m, Img(), i, off, src, tot)
        invariant |mem| == |old(mem)| && mem == old(mem)[i := old(mem)[i].(addrs := mem[i].addrs)]
        invariant tot < |src| ==> (off + tot) / 512 == f + cnt
        invariant cnt == BlocksSpanned(off, tot)
        invariant Filled(sb, m, Img(), i, SpanNeeds(m, i, f, cnt))
        invariant Room(sb, m, i, f, cnt) && Logged() == old(Logged()) + WriteLog(sb, m, i, f, cnt)
      {
        var at := (off + tot) % 512;
        var w := if |src| - tot < BSIZE - at then |src| - tot else BSIZE - at;
        SpanStep(off, tot, w);
        ok := WriteOne(m, old(own), i, off, src, tot, w, cnt, old(Logged()));
        if !ok {
          SpanGrows(off, tot + w, |src|);
          SpanMonotone(m, i, f, cnt + 1, BlocksSpanned(off, |src|));
          return false;
        }
        cnt := cnt + 1;
        tot := tot + w;
      }
      return true;
    }
  }
}
