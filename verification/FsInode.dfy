/** struct dinode inside its block (fs.h, iupdate, ilock): eight inodes of 64 bytes, little endian. */
module FsInode {
  import opened Params
  import opened FsImage

  /** What the fields of a dinode can hold: four shorts, a size and thirteen block numbers. */
  predicate Fits(d: Dinode) {
    && -0x8000 <= d.typ < 0x8000 && -0x8000 <= d.major < 0x8000
    && -0x8000 <= d.minor < 0x8000 && -0x8000 <= d.nlink < 0x8000
    && d.size < UINT
    && |d.addrs| == NDIRECT + 1
    && forall k :: 0 <= k < |d.addrs| ==> 0 <= d.addrs[k] < UINT
  }

  function ShortField(d: Dinode, q: int): int {
    if q == 0 then d.typ else if q == 1 then d.major else if q == 2 then d.minor else d.nlink
  }

  function LongField(d: Dinode, w: int): int
    requires |d.addrs| == NDIRECT + 1 && 0 <= w < 14
  {
    if w == 0 then d.size else d.addrs[w - 1]
  }

  /** Byte number q of a number. */
  function ByteOf(x: int, q: int): int {
    (if q == 0 then x else if q == 1 then x / 0x100 else if q == 2 then x / 0x1_0000 else x / 0x100_0000) % 0x100
  }

  function Pack(d: Dinode): (r: seq<int>)
    requires |d.addrs| == NDIRECT + 1
    ensures |r| == 64
  {
    seq(64, q requires 0 <= q < 64 =>
      if q < 8 then ByteOf(ShortField(d, q / 2), q % 2) else ByteOf(LongField(d, (q - 8) / 4), (q - 8) % 4))
  }

  function Short(b: seq<int>, q: int): int
    requires |b| == 64 && 0 <= q < 4
  {
    var v := b[2 * q] % 0x100 + 0x100 * (b[2 * q + 1] % 0x100);
    if v >= 0x8000 then v - 0x1_0000 else v
  }

  function Long(b: seq<int>, w: int): nat
    requires |b| == 64 && 0 <= w < 14
  {
    var at := 8 + 4 * w;
    b[at] % 0x100 + 0x100 * (b[at + 1] % 0x100) + 0x1_0000 * (b[at + 2] % 0x100) + 0x100_0000 * (b[at + 3] % 0x100)
  }

  function Unpack(b: seq<int>): Dinode
    requires |b| == 64
  {
    Dinode(Short(b, 0), Short(b, 1), Short(b, 2), Short(b, 3), Long(b, 0),
           seq(NDIRECT + 1, k requires 0 <= k <= NDIRECT => Long(b, k + 1)))
  }

  lemma TwoBytes(x: int)
    requires -0x8000 <= x < 0x8000
    ensures var v := ByteOf(x, 0) % 0x100 + 0x100 * (ByteOf(x, 1) % 0x100);
            x == if v >= 0x8000 then v - 0x1_0000 else v
  {
    var h := x / 0x100;
    assert x == 0x100 * h + x % 0x100 && -0x80 <= h < 0x80;
    assert h % 0x100 == if h < 0 then h + 0x100 else h;
  }

  lemma PackShort(d: Dinode, q: int)
    requires Fits(d) && 0 <= q < 4
    ensures Short(Pack(d), q) == ShortField(d, q)
  {
    TwoBytes(ShortField(d, q));
    assert 2 * q / 2 == q && 2 * q % 2 == 0 && (2 * q + 1) / 2 == q && (2 * q + 1) % 2 == 1;
  }

  lemma PackByte(d: Dinode, w: int, q: int)
    requires Fits(d) && 0 <= w < 14 && 0 <= q < 4
    ensures Pack(d)[8 + 4 * w + q] == ByteOf(LongField(d, w), q) == ByteOf(LongField(d, w), q) % 0x100
  {
    assert (4 * w + q) / 4 == w && (4 * w + q) % 4 == q;
  }

  lemma PackLong(d: Dinode, w: int)
    requires Fits(d) && 0 <= w < 14
    ensures Long(Pack(d), w) == LongField(d, w)
  {
    hide Pack;
    FourBytes(LongField(d, w));
    PackByte(d, w, 0);
    PackByte(d, w, 1);
    PackByte(d, w, 2);
    PackByte(d, w, 3);
  }

  /** What iupdate packs, ilock unpacks. */
  lemma PackRoundTrip(d: Dinode)
    requires Fits(d)
    ensures Unpack(Pack(d)) == d
  {
    hide Pack, Short, Long;
    PackShort(d, 0);
    PackShort(d, 1);
    PackShort(d, 2);
    PackShort(d, 3);
    PackLong(d, 0);
    forall k | 0 <= k <= NDIRECT
      ensures Long(Pack(d), k + 1) == d.addrs[k]
    {
      PackLong(d, k + 1);
    }
  }

  /** The number in these bytes, the lowest first. */
  function Little(b: seq<int>): int {
    if b == [] then 0 else b[0] + 0x100 * Little(b[1..])
  }

  lemma LittleTwo(b: seq<int>, i: nat)
    requires i + 2 <= |b|
    ensures Little(b[i..i + 2]) == b[i] + 0x100 * b[i + 1]
  {
    var c := b[i..i + 2];
    assert c[1..] == [b[i + 1]];
    assert c[1..][1..] == [];
    assert Little(c[1..]) == b[i + 1] + 0x100 * Little([]);
  }

  lemma LittleFour(b: seq<int>, i: nat)
    requires i + 4 <= |b|
    ensures Little(b[i..i + 4]) == b[i] + 0x100 * b[i + 1] + 0x1_0000 * b[i + 2] + 0x100_0000 * b[i + 3]
  {
    var c := b[i..i + 4];
    assert c[1..][1..] == b[i + 2..i + 4];
    LittleTwo(b, i + 2);
  }

  lemma TwoLow(x: int)
    ensures ByteOf(x, 0) + 0x100 * ByteOf(x, 1) == x % 0x1_0000
  {
    var h := x / 0x100;
    assert x == 0x100 * h + x % 0x100;
    assert h == 0x100 * (h / 0x100) + h % 0x100;
  }

  lemma ShortAt(d: Dinode, q: int)
    requires Fits(d) && 0 <= q < 4
    ensures Little(Pack(d)[2 * q..2 * q + 2]) == ShortField(d, q) % 0x1_0000
  {
    hide Little, ByteOf;
    var b := Pack(d);
    LittleTwo(b, 2 * q);
    assert 2 * q / 2 == q && 2 * q % 2 == 0 && (2 * q + 1) / 2 == q && (2 * q + 1) % 2 == 1;
    TwoLow(ShortField(d, q));
  }

  lemma LongAt(d: Dinode, w: int)
    requires Fits(d) && 0 <= w < 14
    ensures Little(Pack(d)[8 + 4 * w..12 + 4 * w]) == LongField(d, w)
  {
    hide Little, Pack;
    LittleFour(Pack(d), 8 + 4 * w);
    PackByte(d, w, 0);
    PackByte(d, w, 1);
    PackByte(d, w, 2);
    PackByte(d, w, 3);
    FourBytes(LongField(d, w));
  }

  lemma ByteRange(d: Dinode)
    requires |d.addrs| == NDIRECT + 1
    ensures forall q :: 0 <= q < 64 ==> 0 <= Pack(d)[q] < 0x100
  {
  }

  /**
  struct dinode byte by byte: the four shorts at 0, 2, 4 and 6 in two's complement, the size at 8, and
  address k at 12 + 4k.
  */
  lemma InodeLayout(d: Dinode)
    requires Fits(d)
    ensures var b := Pack(d);
            && (forall q :: 0 <= q < 64 ==> 0 <= b[q] < 0x100)
            && Little(b[0..2]) == d.typ % 0x1_0000 && Little(b[2..4]) == d.major % 0x1_0000
            && Little(b[4..6]) == d.minor % 0x1_0000 && Little(b[6..8]) == d.nlink % 0x1_0000
            && Little(b[8..12]) == d.size
            && forall k :: 0 <= k < |d.addrs| ==> Little(b[12 + 4 * k..16 + 4 * k]) == d.addrs[k]
  {
    hide Little, Pack;
    ByteRange(d);
    ShortAt(d, 0);
    ShortAt(d, 1);
    ShortAt(d, 2);
    ShortAt(d, 3);
    LongAt(d, 0);
    forall k | 0 <= k < |d.addrs|
      ensures Little(Pack(d)[12 + 4 * k..16 + 4 * k]) == d.addrs[k]
    {
      LongAt(d, k + 1);
    }
  }

  /** Inode k of a block. */
  function GetInode(b: Block, k: nat): Dinode
    requires |b| == BSIZE && k < IPB
  {
    Unpack(b[64 * k..64 * k + 64])
  }

  function PutInode(b: Block, k: nat, d: Dinode): (r: Block)
    requires |b| == BSIZE && k < IPB && |d.addrs| == NDIRECT + 1
    ensures |r| == BSIZE
  {
    b[..64 * k] + Pack(d) + b[64 * k + 64..]
  }

  lemma PutGet(b: Block, k: nat, d: Dinode, l: nat)
    requires |b| == BSIZE && k < IPB && l < IPB && Fits(d)
    ensures GetInode(PutInode(b, k, d), l) == if l == k then d else GetInode(b, l)
  {
    hide Pack, Unpack;
    var r := PutInode(b, k, d);
    if l == k {
      assert r[64 * k..64 * k + 64] == Pack(d);
      PackRoundTrip(d);
    } else {
      assert 64 * l + 64 <= 64 * k || 64 * k + 64 <= 64 * l;
      assert r[64 * l..64 * l + 64] == b[64 * l..64 * l + 64];
    }
  }

  /** Inode i as its block on disk shows it. */
  function DiskInode(sb: Super, blk: seq<Block>, i: int): Dinode
    requires Sized(sb, blk) && 0 <= i < sb.ninodes
  {
    GetInode(blk[IBlock(sb, i)], i % 8)
  }

  /** The inode blocks say ino. */
  ghost predicate Stores(sb: Super, blk: seq<Block>, ino: seq<Dinode>)
    requires Sized(sb, blk)
  {
    |ino| == sb.ninodes && forall i :: 0 <= i < |ino| ==> DiskInode(sb, blk, i) == ino[i]
  }

  /** iupdate changes the stored copy of inode i alone. */
  lemma StoresUpdate(sb: Super, blk: seq<Block>, ino: seq<Dinode>, i: nat, d: Dinode)
    requires Sized(sb, blk) && Stores(sb, blk, ino) && i < |ino| && Fits(d)
    ensures var b := PutInode(blk[IBlock(sb, i)], i % 8, d);
            Sized(sb, blk[IBlock(sb, i) := b]) && Stores(sb, blk[IBlock(sb, i) := b], ino[i := d])
  {
    hide GetInode, PutInode;
    var x := IBlock(sb, i);
    var b := PutInode(blk[x], i % 8, d);
    var c := blk[x := b];
    forall j | 0 <= j < |ino|
      ensures DiskInode(sb, c, j) == ino[i := d][j]
    {
      if IBlock(sb, j) == x {
        PutGet(blk[x], i % 8, d, j % 8);
        assert j == i || j % 8 != i % 8;
      }
    }
  }

  /** A block outside the inode blocks changes no stored inode. */
  lemma StoresFrame(sb: Super, blk: seq<Block>, ino: seq<Dinode>, x: nat, b: Block)
    requires Sized(sb, blk) && Stores(sb, blk, ino) && sb.bmapstart <= x < sb.size && |b| == BSIZE
    ensures Sized(sb, blk[x := b]) && Stores(sb, blk[x := b], ino)
  {
    hide GetInode;
    var c := blk[x := b];
    forall j | 0 <= j < |ino|
      ensures DiskInode(sb, c, j) == DiskInode(sb, blk, j)
    {
      assert IBlock(sb, j) < sb.bmapstart;
    }
  }
}
