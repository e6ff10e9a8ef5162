/**
Disks that the file system theorems speak of: one that uses a whole reservation in one chunk,
and one with a hole on which the same chunk needs a block more.
*/
module FsWitness {
  import opened Params
  import opened FsImage
  import opened FsInode
  import opened FsFile
  import opened FsLog
  import opened FileSystem
  import opened FileWrite
  import LogDisk

  // ----- an empty disk -----

  /** mkfs with 200 inodes and a log of 30 blocks, on a disk of four full bitmap blocks and one bit of a fifth. */
  const SB := Super(16385, 200, 32, 58, 63)
  /** Eleven blocks and a hundred bytes. */
  const SIZE := 5732
  /** The data blocks that are not spare. */
  const FILL := 16317

  /** The blocks that stay free: the last under each of the full bitmap blocks, and the one under the fifth. */
  predicate Spare(b: int) {
    b == 4095 || b == 8191 || b == 12287 || b == 16383 || b == 16384
  }

  function SparesBelow(x: int): nat {
    (if x > 4095 then 1 else 0) + (if x > 8191 then 1 else 0) + (if x > 12287 then 1 else 0)
    + (if x > 16383 then 1 else 0) + (if x > 16384 then 1 else 0)
  }

  /** How many of its slots inode j gets in the end: h for the file at inode 1, then all for one inode after the other. */
  function Share(h: nat, j: int): nat {
    if j < 1 then 0 else if j == 1 then h else
      var left := FILL - h - (j - 2) * 141;
      if left < 0 then 0 else if left < 141 then left else 141
  }

  /** A file that fills its blocks, but for the one at inode 1; an inode without blocks is free. */
  function Blank(h: nat, j: int): Dinode {
    var c := Share(h, j);
    var size := if j == 1 then SIZE else 512 * if c <= IND then c else c - 1;
    Dinode(if size > 0 then 2 else 0, 0, 0, if size > 0 then 1 else 0, size, seq(13, _ => 0))
  }

  lemma {:induction false} ZeroBit(i: nat)
    ensures !Bit(0, i)
    decreases i
  {
    if i > 0 {
      ZeroBit(i - 1);
    }
  }

  /** Blocks of zeros with the bits of the first x blocks set. */
  lemma {:induction false} Marked(x: nat) returns (blk: seq<Block>)
    requires x <= SB.datastart
    ensures Sized(SB, blk) && forall b :: 0 <= b < SB.size ==> (Used(SB, blk, b) <==> b < x)
  {
    if x == 0 {
      blk := seq(SB.size, _ => Zero());
      forall b | 0 <= b < SB.size
        ensures !Used(SB, blk, b)
      {
        ZeroBit(b % 8);
      }
    } else {
      var p := Marked(x - 1);
      blk := MarkBit(SB, p, x - 1, true);
      forall b | 0 <= b < SB.size
        ensures Sized(SB, blk) && (Used(SB, blk, b) <==> b < x)
      {
        MarkBitEffect(SB, p, x - 1, true, b);
      }
    }
  }

  // ----- filling it -----

  /** The t-th slot to fill: the first h of inode 1, then all slots of the inodes after it. */
  function SlotOf(h: nat, t: nat): (int, int) {
    if t < h then (1, t) else (2 + (t - h) / 141, (t - h) % 141)
  }

  predicate Due(h: nat, t: nat, j: int, k: int) {
    1 <= j < 200 && 0 <= k < NSLOTS && if j == 1 then k < h && k < t else h + (j - 2) * 141 + k < t
  }

  /** All blocks below x but the spare ones are in the first t slots. */
  ghost predicate Stage(h: nat, x: nat, t: nat, m: Image, own: Owner) {
    && Consistent(SB, m, own)
    && (forall j :: 0 <= j < 200 ==> m.ino[j] == Blank(h, j).(addrs := m.ino[j].addrs))
    && (forall b :: SB.datastart <= b < SB.size ==> (Used(SB, m.blk, b) <==> b < x && !Spare(b)))
    && (forall j, k {:trigger Addr(m, j, k)} :: Addr(m, j, k) != 0 <==> Due(h, t, j, k))
  }

  lemma Empty(h: nat) returns (m: Image, own: Owner)
    ensures Stage(h, SB.datastart, 0, m, own)
  {
    hide Used;
    var blk := Marked(SB.datastart);
    m, own := Image(blk, seq(200, j requires 0 <= j < 200 => Blank(h, j))), map[];
    forall j, k
      ensures Addr(m, j, k) == 0
    {
    }
  }

  lemma SlotNext(h: nat, t: nat, j: int, k: int)
    requires h <= 12 && t <= FILL + 5
    ensures var (i, l) := SlotOf(h, t);
            && 0 <= i < 200 && 0 <= l < NSLOTS && !Due(h, t, i, l) && (l > IND ==> Due(h, t, i, IND))
            && (Due(h, t + 1, j, k) <==> Due(h, t, j, k) || (j == i && k == l))
  {
  }

  /** Block x goes into slot (i, k). */
  lemma Place(m: Image, own: Owner, i: int, k: int, x: nat) returns (n: Image)
    requires Consistent(SB, m, own) && 0 <= i < 200 && 0 <= k < NSLOTS && Addr(m, i, k) == 0
    requires SB.datastart <= x < SB.size && !Used(SB, m.blk, x) && (k > IND ==> Addr(m, i, IND) != 0)
    ensures Consistent(SB, n, own[x := (i, k)])
    ensures forall b :: 0 <= b < SB.size ==> (Used(SB, n.blk, b) <==> b == x || Used(SB, m.blk, b))
    ensures forall j, l {:trigger Addr(n, j, l)} :: Addr(n, j, l) == if j == i && l == k then x else Addr(m, j, l)
    ensures forall j :: 0 <= j < 200 ==> n.ino[j] == m.ino[j].(addrs := n.ino[j].addrs)
  {
    hide Addr, Used, Owns, Allocated, PutWord;
    if k <= IND {
      n := FillDirect(SB, m, i, k, x);
      FillDirectOwns(SB, m, own, i, k, x);
      AllocatedEffect(SB, m.blk, x);
      forall j, l
        ensures Addr(n, j, l) == if j == i && l == k then x else Addr(m, j, l)
      {
        FillDirectAddr(SB, m, own, i, k, x, j, l);
      }
    } else {
      var e := k - IND - 1;
      FillEntryOwns(SB, m, own, i, e, x);
      SlotRange(SB, m, own, i, IND);
      n := FillEntry(SB, m, i, e, x);
      FillEntryBlocks(SB, m, i, e, x);
      forall j, l
        ensures Addr(n, j, l) == if j == i && l == k then x else Addr(m, j, l)
      {
        FillEntryAddr(SB, m, own, i, e, x, j, l);
      }
    }
  }

  lemma StageNext(h: nat, x: nat, t: nat, m: Image, own: Owner) returns (t': nat, n: Image, own': Owner)
    requires h <= 12 && Stage(h, x, t, m, own) && SB.datastart <= x < SB.size && t <= x - SB.datastart
    ensures Stage(h, x + 1, t', n, own') && t' == if Spare(x) then t else t + 1
  {
    hide Addr, Used, Owns;
    if Spare(x) {
      return t, m, own;
    }
    var (i, k) := SlotOf(h, t);
    SlotNext(h, t, i, k);
    assert Addr(m, i, k) == 0 && (k > IND ==> Addr(m, i, IND) != 0);
    n := Place(m, own, i, k, x);
    t', own' := t + 1, own[x := (i, k)];
    forall j, l
      ensures Addr(n, j, l) != 0 <==> Due(h, t + 1, j, l)
    {
      SlotNext(h, t, j, l);
      assert Addr(m, j, l) != 0 <==> Due(h, t, j, l);
    }
  }

  lemma {:induction false} FillTo(h: nat, x: nat) returns (t: nat, m: Image, own: Owner)
    requires h <= 12 && SB.datastart <= x <= SB.size
    ensures Stage(h, x, t, m, own) && t == x - SB.datastart - SparesBelow(x)
    decreases x
  {
    hide Stage;
    if x == SB.datastart {
      m, own := Empty(h);
      t := 0;
    } else {
      var t0, m0, own0 := FillTo(h, x - 1);
      t, m, own := StageNext(h, x - 1, t0, m0, own0);
    }
  }

  // ----- the full disk -----

  lemma FreeRun(blk: seq<Block>, a: nat, b: nat)
    requires Sized(SB, blk) && a <= b < SB.size && !Used(SB, blk, b) && forall x :: a <= x < b ==> Used(SB, blk, x)
    ensures FreeFrom(SB, blk, a) == [b] + FreeFrom(SB, blk, b + 1)
  {
    hide Used;
    FreeFromSkip(SB, blk, a, b);
  }

  lemma SpareFrees(blk: seq<Block>)
    requires Sized(SB, blk) && forall b :: 0 <= b < SB.size ==> (Used(SB, blk, b) <==> !Spare(b))
    ensures Frees(SB, blk) == [4095, 8191, 12287, 16383, 16384]
  {
    hide Used, FreeFrom;
    FreeRun(blk, 0, 4095);
    FreeRun(blk, 4096, 8191);
    FreeRun(blk, 8192, 12287);
    FreeRun(blk, 12288, 16383);
    FreeRun(blk, 16384, 16384);
    NoneAfter(blk);
  }

  lemma NoneAfter(blk: seq<Block>)
    requires Sized(SB, blk)
    ensures FreeFrom(SB, blk, 16385) == []
  {
  }

  lemma SpareMaps(n: nat)
    requires n <= 5
    ensures LogDisk.Distinct(Maps(SB, [4095, 8191, 12287, 16383, 16384][..n]))
  {
  }

  // ----- its inodes on disk -----

  /** Inodes written into their blocks one by one. */
  lemma {:induction false} StoreInodes(sb: Super, blk: seq<Block>, ino: seq<Dinode>, k: nat) returns (r: seq<Block>, cur: seq<Dinode>)
    requires Sized(sb, blk) && |ino| == sb.ninodes && k <= |ino| && forall j :: 0 <= j < |ino| ==> Fits(ino[j])
    ensures Sized(sb, r) && Stores(sb, r, cur) && forall j :: 0 <= j < k ==> cur[j] == ino[j]
    ensures forall x :: sb.bmapstart <= x < sb.size ==> r[x] == blk[x]
  {
    hide GetInode, PutInode;
    if k == 0 {
      r, cur := blk, seq(sb.ninodes, i requires 0 <= i < sb.ninodes => DiskInode(sb, blk, i));
    } else {
      r, cur := StoreInodes(sb, blk, ino, k - 1);
      StoresUpdate(sb, r, cur, k - 1, ino[k - 1]);
      var b := PutInode(r[IBlock(sb, k - 1)], (k - 1) % 8, ino[k - 1]);
      r, cur := r[IBlock(sb, k - 1) := b], cur[k - 1 := ino[k - 1]];
    }
  }

  /** A consistent disk, full but for the spare blocks, on which the file at inode 1 has its first h blocks. */
  lemma FullDisk(h: nat) returns (m: Image, own: Owner)
    requires h <= 12
    ensures Consistent(SB, m, own) && Stores(SB, m.blk, m.ino) && Frees(SB, m.blk) == [4095, 8191, 12287, 16383, 16384]
    ensures forall j :: 0 <= j < 200 ==> m.ino[j] == Blank(h, j).(addrs := m.ino[j].addrs) && Fits(m.ino[j])
    ensures forall j, k {:trigger Addr(m, j, k)} :: Addr(m, j, k) != 0 <==> Due(h, FILL, j, k)
  {
    hide Used, Addr, Frees;
    var t, n;
    t, n, own := FillTo(h, SB.size);
    forall j | 0 <= j < 200
      ensures Fits(n.ino[j])
    {
      StillFits(SB, n, own, j, Blank(h, j));
    }
    var blk, cur := StoreInodes(SB, n.blk, n.ino, 200);
    assert cur == n.ino;
    m := Image(blk, n.ino);
    HeadContent(SB, n, own, m);
    MetaUsed(SB, m, own);
    SpareFrees(m.blk);
  }

  /** Every file but the one at inode 1 has all the blocks of its size. */
  lemma OthersWhole(h: nat, m: Image, j: int)
    requires h <= 12 && |m.ino| == 200 && 0 <= j < 200 && j != 1
    requires m.ino[j] == Blank(h, j).(addrs := m.ino[j].addrs)
    requires forall k {:trigger Addr(m, j, k)} :: Addr(m, j, k) != 0 <==> Due(h, FILL, j, k)
    ensures HoleFree(m, j)
  {
    hide Addr;
    var c := Share(h, j);
    forall n | 0 <= n < Blocks(m.ino[j].size)
      ensures BlockOf(m, j, n) != 0
    {
      assert Due(h, FILL, j, DataSlot(n));
    }
  }

  /** A sound disk, fit to be mounted, on which one chunk uses the whole reservation. */
  lemma TightDisk() returns (m: Image, own: Owner)
    ensures Sound(SB, m, own) && (forall j :: 0 <= j < |m.ino| ==> Fits(m.ino[j]))
    ensures Room(SB, m, 1, SIZE / 512, BlocksSpanned(SIZE, CHUNK))
    ensures |WriteiLog(SB, m, 1, SIZE, CHUNK)| == MAXOPBLOCKS
  {
    hide Used, Addr, Frees, Room, WriteiLog;
    m, own := FullDisk(12);
    forall j | 0 <= j < |m.ino|
      ensures HoleFree(m, j)
    {
      if j != 1 {
        OthersWhole(12, m, j);
      }
    }
    SpareMaps(4);
    BoundIsTight(SB, m, own, 1, SIZE);
  }

  /** A consistent disk with one hole, on which the same chunk needs a block more than the reservation. */
  lemma HoleDisk() returns (m: Image, own: Owner)
    ensures Consistent(SB, m, own) && Stores(SB, m.blk, m.ino) && forall j :: 0 <= j < |m.ino| ==> Fits(m.ino[j])
    ensures m.ino[1].size == SIZE && forall j :: 0 <= j < |m.ino| ==> (HoleFree(m, j) <==> j != 1)
    ensures Room(SB, m, 1, SIZE / 512, BlocksSpanned(SIZE, CHUNK))
    ensures |WriteiLog(SB, m, 1, SIZE, CHUNK)| == MAXOPBLOCKS + 1
  {
    hide Used, Addr, Frees, Room, WriteiLog;
    m, own := FullDisk(11);
    assert BlockOf(m, 1, 11) == 0;
    forall j | 0 <= j < |m.ino|
      ensures HoleFree(m, j) <==> j != 1
    {
      if j != 1 {
        OthersWhole(11, m, j);
      }
    }
    SpareMaps(5);
    HolesBreakBound(SB, m, own, 1, SIZE);
  }
}
