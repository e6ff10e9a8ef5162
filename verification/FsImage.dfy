/**
The disk image behind fs.c as values: bitmap bits inside bytes, block numbers inside
indirect blocks, inodes with direct and indirect slots, and who owns which block.
*/
module FsImage {
  import opened Params

  const NDIRECT := 12
  const NINDIRECT := 128
  const MAXFILE := 140
  const MAXBYTES := 71680  // MAXFILE * BSIZE
  const BPB := 4096
  const IPB := 8
  const UINT := 0x1_0000_0000
  /** Slots of an inode: 0..11 direct, 12 the indirect block, 13.. its entries. */
  const IND := 12
  const NSLOTS := 141

  type Block = seq<int>

  datatype Dinode = Dinode(typ: int, major: int, minor: int, nlink: int, size: nat, addrs: seq<int>)

  /** The superblock; data blocks start at datastart. */
  datatype Super = Super(size: nat, ninodes: nat, inodestart: nat, bmapstart: nat, datastart: nat)

  /** All blocks, and every inode as its in-memory copy would show it. */
  datatype Image = Image(blk: seq<Block>, ino: seq<Dinode>)

  function BBlock(sb: Super, b: int): int {
    b / 4096 + sb.bmapstart
  }

  function IBlock(sb: Super, i: int): int {
    i / 8 + sb.inodestart
  }

  predicate SuperOk(sb: Super) {
    && 1 < sb.inodestart
    && sb.inodestart + sb.ninodes / 8 < sb.bmapstart
    && sb.bmapstart + sb.size / 4096 < sb.datastart <= sb.size < UINT
  }

  predicate Shape(sb: Super, m: Image) {
    && SuperOk(sb)
    && |m.blk| == sb.size
    && (forall b :: 0 <= b < |m.blk| ==> |m.blk[b]| == BSIZE)
    && |m.ino| == sb.ninodes
    && (forall i :: 0 <= i < |m.ino| ==> |m.ino[i].addrs| == NDIRECT + 1)
  }

  // ----- bits in bytes -----

  /** x & (1 << i) is nonzero. */
  predicate Bit(x: int, i: nat)
    decreases i
  {
    if i == 0 then x % 2 == 1 else Bit(x / 2, i - 1)
  }

  /** x | (1 << i) */
  function SetBit(x: int, i: nat): int
    decreases i
  {
    if i == 0 then x - x % 2 + 1 else 2 * SetBit(x / 2, i - 1) + x % 2
  }

  /** x & ~(1 << i) */
  function ClearBit(x: int, i: nat): int
    decreases i
  {
    if i == 0 then x - x % 2 else 2 * ClearBit(x / 2, i - 1) + x % 2
  }

  /** Setting or clearing one bit leaves the others alone. */
  lemma {:induction false} BitOps(x: int, i: nat, j: nat)
    ensures Bit(SetBit(x, i), j) <==> j == i || Bit(x, j)
    ensures Bit(ClearBit(x, i), j) <==> j != i && Bit(x, j)
    decreases i
  {
    if i != 0 && j != 0 {
      BitOps(x / 2, i - 1, j - 1);
    }
  }

  /** Is block b marked in use? */
  predicate Used(sb: Super, blk: seq<Block>, b: int)
    requires SuperOk(sb) && 0 <= b < sb.size == |blk|
    requires forall x :: 0 <= x < |blk| ==> |blk[x]| == BSIZE
  {
    Bit(blk[BBlock(sb, b)][b % 4096 / 8], b % 8)
  }

  // ----- block numbers in indirect blocks, little endian -----

  function Word(b: Block, j: nat): int
    requires |b| == BSIZE && j < NINDIRECT
  {
    b[4 * j] + 0x100 * b[4 * j + 1] + 0x1_0000 * b[4 * j + 2] + 0x100_0000 * b[4 * j + 3]
  }

  function PutWord(b: Block, j: nat, w: nat): (r: Block)
    requires |b| == BSIZE && j < NINDIRECT && w < UINT
    ensures |r| == BSIZE
  {
    b[4 * j := w % 0x100][4 * j + 1 := w / 0x100 % 0x100]
     [4 * j + 2 := w / 0x1_0000 % 0x100][4 * j + 3 := w / 0x100_0000 % 0x100]
  }

  lemma PutWordHit(b: Block, j: nat, w: nat)
    requires |b| == BSIZE && j < NINDIRECT && w < UINT
    ensures Word(PutWord(b, j, w), j) == w
  {
    FourBytes(w);
  }

  lemma FourBytes(w: nat)
    requires w < UINT
    ensures w % 0x100 + 0x100 * (w / 0x100 % 0x100) + 0x1_0000 * (w / 0x1_0000 % 0x100)
            + 0x100_0000 * (w / 0x100_0000 % 0x100) == w
  {
    var b0, b1, b2 := w % 0x100, w / 0x100 % 0x100, w / 0x1_0000 % 0x100;
    var h, hh, hhh := w / 0x100, w / 0x1_0000, w / 0x100_0000;
    assert hh == h / 0x100 && hhh == hh / 0x100;
    assert w == 0x100 * h + b0 && h == 0x100 * hh + b1 && hh == 0x100 * hhh + b2;
    assert 0 <= hhh < 0x100;
  }

  lemma PutWordMiss(b: Block, j: nat, w: nat, l: nat)
    requires |b| == BSIZE && j < NINDIRECT && w < UINT && l < NINDIRECT && l != j
    ensures Word(PutWord(b, j, w), l) == Word(b, l)
  {
  }

  function Zero(): (b: Block)
    ensures |b| == BSIZE && forall j :: 0 <= j < BSIZE ==> b[j] == 0
  {
    seq(BSIZE, _ => 0)
  }

  // ----- marking and unmarking blocks -----

  predicate Sized(sb: Super, blk: seq<Block>) {
    SuperOk(sb) && |blk| == sb.size && forall b :: 0 <= b < |blk| ==> |blk[b]| == BSIZE
  }

  function MarkBit(sb: Super, blk: seq<Block>, b: int, on: bool): seq<Block>
    requires Sized(sb, blk) && 0 <= b < sb.size
  {
    var bb, o := BBlock(sb, b), b % 4096 / 8;
    var x := blk[bb][o];
    blk[bb := blk[bb][o := if on then SetBit(x, b % 8) else ClearBit(x, b % 8)]]
  }

  /** balloc's effect: the bit is set, then the block is zeroed. */
  function Allocated(sb: Super, blk: seq<Block>, b: int): (r: seq<Block>)
    requires Sized(sb, blk) && 0 <= b < sb.size
    ensures Sized(sb, r)
  {
    MarkBit(sb, blk, b, true)[b := Zero()]
  }

  /** Block number, byte and bit of the bitmap determine the block. */
  lemma BitPosition(b: int, x: int)
    requires 0 <= b && 0 <= x
    requires b / 4096 == x / 4096 && b % 4096 / 8 == x % 4096 / 8 && b % 8 == x % 8
    ensures b == x
  {
    ByteAndBit(b);
    ByteAndBit(x);
  }

  lemma ByteAndBit(b: int)
    requires 0 <= b
    ensures b == 4096 * (b / 4096) + 8 * (b % 4096 / 8) + b % 8
  {
    var q, r := b / 4096, b % 4096;
    assert b == 8 * (512 * q) + r;
    assert r % 8 == b % 8;
  }

  lemma MarkBitEffect(sb: Super, blk: seq<Block>, b: int, on: bool, x: int)
    requires Sized(sb, blk) && 0 <= b < sb.size && 0 <= x < sb.size
    ensures Sized(sb, MarkBit(sb, blk, b, on))
    ensures Used(sb, MarkBit(sb, blk, b, on), x) <==> if x == b then on else Used(sb, blk, x)
    ensures x >= sb.datastart ==> MarkBit(sb, blk, b, on)[x] == blk[x]
  {
    var y := blk[BBlock(sb, b)][b % 4096 / 8];
    BitOps(y, b % 8, x % 8);
    if b / 4096 == x / 4096 && b % 4096 / 8 == x % 4096 / 8 && b % 8 == x % 8 {
      BitPosition(b, x);
    }
  }

  lemma AllocatedEffect(sb: Super, blk: seq<Block>, b: int)
    requires Sized(sb, blk) && sb.datastart <= b < sb.size
    ensures var r := Allocated(sb, blk, b);
            && Sized(sb, r) && r[b] == Zero()
            && (forall x :: 0 <= x < sb.size ==> (Used(sb, r, x) <==> x == b || Used(sb, blk, x)))
            && (forall x :: sb.datastart <= x < sb.size && x != b ==> r[x] == blk[x])
  {
    var r := Allocated(sb, blk, b);
    MarkBitEffect(sb, blk, b, true, b);
    var k := MarkBit(sb, blk, b, true);
    forall x | 0 <= x < sb.size
      ensures Used(sb, r, x) <==> x == b || Used(sb, blk, x)
    {
      MarkBitEffect(sb, blk, b, true, x);
      assert r[BBlock(sb, x)] == k[BBlock(sb, x)];
    }
    forall x | sb.datastart <= x < sb.size && x != b
      ensures r[x] == blk[x]
    {
      MarkBitEffect(sb, blk, b, true, x);
    }
  }

  lemma FreedEffect(sb: Super, blk: seq<Block>, b: int)
    requires Sized(sb, blk) && 0 <= b < sb.size
    ensures var r := MarkBit(sb, blk, b, false);
            && Sized(sb, r)
            && (forall x :: 0 <= x < sb.size ==> (Used(sb, r, x) <==> x != b && Used(sb, blk, x)))
            && (forall x :: sb.datastart <= x < sb.size ==> r[x] == blk[x])
  {
    var r := MarkBit(sb, blk, b, false);
    MarkBitEffect(sb, blk, b, false, b);
    forall x | 0 <= x < sb.size
      ensures Used(sb, r, x) <==> x != b && Used(sb, blk, x)
      ensures x >= sb.datastart ==> r[x] == blk[x]
    {
      MarkBitEffect(sb, blk, b, false, x);
    }
  }

  // ----- the free blocks, in the order balloc finds them -----

  function FreeFrom(sb: Super, blk: seq<Block>, b: nat): seq<int>
    requires Sized(sb, blk) && b <= sb.size
    decreases sb.size - b
  {
    if b == sb.size then []
    else if Used(sb, blk, b) then FreeFrom(sb, blk, b + 1)
    else [b] + FreeFrom(sb, blk, b + 1)
  }

  lemma {:induction false} FreeFromSorted(sb: Super, blk: seq<Block>, b: nat)
    requires Sized(sb, blk) && b <= sb.size
    ensures forall x :: x in FreeFrom(sb, blk, b) <==> b <= x < sb.size && !Used(sb, blk, x)
    ensures forall j, k :: 0 <= j < k < |FreeFrom(sb, blk, b)| ==> FreeFrom(sb, blk, b)[j] < FreeFrom(sb, blk, b)[k]
    decreases sb.size - b
  {
    hide Used;
    if b < sb.size {
      var rest := FreeFrom(sb, blk, b + 1);
      FreeFromSorted(sb, blk, b + 1);
      assert forall j :: 0 <= j < |rest| ==> rest[j] in rest;
    }
  }

  function Frees(sb: Super, blk: seq<Block>): (s: seq<int>)
    requires Sized(sb, blk)
    ensures forall x :: x in s <==> 0 <= x < sb.size && !Used(sb, blk, x)
    ensures forall j, k :: 0 <= j < k < |s| ==> s[j] < s[k]
  {
    FreeFromSorted(sb, blk, 0);
    FreeFrom(sb, blk, 0)
  }

  lemma {:induction false} FreeFromSkip(sb: Super, blk: seq<Block>, b: nat, r: nat)
    requires Sized(sb, blk) && b <= r <= sb.size && forall x :: b <= x < r ==> Used(sb, blk, x)
    ensures FreeFrom(sb, blk, b) == FreeFrom(sb, blk, r)
    decreases r - b
  {
    hide Used;
    if b < r {
      FreeFromSkip(sb, blk, b + 1, r);
    }
  }

  lemma {:induction false} FreeFromSame(sb: Super, p: seq<Block>, q: seq<Block>, b: nat)
    requires Sized(sb, p) && Sized(sb, q) && b <= sb.size
    requires forall x :: b <= x < sb.size ==> (Used(sb, p, x) <==> Used(sb, q, x))
    ensures FreeFrom(sb, p, b) == FreeFrom(sb, q, b)
    decreases sb.size - b
  {
    hide Used;
    if b < sb.size {
      FreeFromSame(sb, p, q, b + 1);
    }
  }

  lemma FreesSame(sb: Super, p: seq<Block>, q: seq<Block>)
    requires Sized(sb, p) && Sized(sb, q)
    requires forall x :: 0 <= x < sb.size ==> (Used(sb, p, x) <==> Used(sb, q, x))
    ensures Frees(sb, p) == Frees(sb, q)
  {
    FreeFromSame(sb, p, q, 0);
  }

  /** Marking the first free block takes it off the front. */
  lemma FreesTake(sb: Super, p: seq<Block>, q: seq<Block>, r: nat)
    requires Sized(sb, p) && Sized(sb, q) && r < sb.size
    requires !Used(sb, p, r) && forall x :: 0 <= x < r ==> Used(sb, p, x)
    requires forall x :: 0 <= x < sb.size ==> (Used(sb, q, x) <==> x == r || Used(sb, p, x))
    ensures Frees(sb, p) == [r] + Frees(sb, q)
  {
    hide Used;
    FreeFromSkip(sb, p, 0, r);
    FreeFromSkip(sb, q, 0, r + 1);
    FreeFromSame(sb, p, q, r + 1);
  }

  // ----- slots and ownership -----

  /** The block number in slot k of inode i, 0 if there is none. */
  function Addr(m: Image, i: int, k: int): int {
    if !(0 <= i < |m.ino| && 0 <= k < NSLOTS && |m.ino[i].addrs| == NDIRECT + 1) then 0
    else if k <= IND then m.ino[i].addrs[k]
    else
      var p := m.ino[i].addrs[IND];
      if 0 < p < |m.blk| && |m.blk[p]| == BSIZE then Word(m.blk[p], k - IND - 1) else 0
  }

  /** n has the same block numbers in all slots as m. */
  ghost predicate SameSlots(m: Image, n: Image) {
    forall j, k {:trigger Addr(n, j, k)} :: Addr(n, j, k) == Addr(m, j, k)
  }

  lemma SameSlotsAt(m: Image, n: Image, j: int, k: int)
    requires SameSlots(m, n)
    ensures Addr(n, j, k) == Addr(m, j, k)
  {
  }

  lemma SameSlotsTrans(m: Image, n: Image, o: Image)
    requires SameSlots(m, n) && SameSlots(n, o)
    ensures SameSlots(m, o)
  {
  }

  type Owner = map<int, (int, int)>

  /**
  Set bits are exactly the metadata blocks plus the disjoint union of all slots.
  itrunc frees the entries of an indirect block before it drops the block, so the first dn
  entries of inode di may be excepted.
  */
  ghost predicate Owns(sb: Super, m: Image, own: Owner, di: int, dn: int)
    requires Shape(sb, m)
  {
    && (forall i, k {:trigger Addr(m, i, k)} ::
          Addr(m, i, k) != 0 && !(i == di && IND < k <= IND + dn)
          ==> Addr(m, i, k) in own && own[Addr(m, i, k)] == (i, k))
    && (forall b :: b in own ==>
          && sb.datastart <= b < sb.size
          && !(own[b].0 == di && IND < own[b].1 <= IND + dn)
          && Addr(m, own[b].0, own[b].1) == b)
    && (forall b :: 0 <= b < sb.size ==> (Used(sb, m.blk, b) <==> b < sb.datastart || b in own))
  }

  ghost predicate Consistent(sb: Super, m: Image, own: Owner) {
    Shape(sb, m) && Owns(sb, m, own, 0, 0)
  }

  /** No block belongs to two slots, of one file or of two. */
  lemma SlotsDisjoint(sb: Super, m: Image, own: Owner, i: int, k: int, j: int, l: int)
    requires Consistent(sb, m, own)
    requires Addr(m, i, k) == Addr(m, j, l) != 0
    ensures i == j && k == l && sb.datastart <= Addr(m, i, k) < sb.size && Used(sb, m.blk, Addr(m, i, k))
  {
  }

  /** Reading an inode's direct slots and, through its indirect block, the entries. */
  lemma EntryAddr(sb: Super, m: Image, own: Owner, i: int, e: nat)
    requires Consistent(sb, m, own) && 0 <= i < |m.ino| && e < NINDIRECT
    ensures m.ino[i].addrs[IND] == Addr(m, i, IND)
    ensures Addr(m, i, IND) != 0 ==>
      && 0 < Addr(m, i, IND) < |m.blk| && |m.blk[Addr(m, i, IND)]| == BSIZE
      && Word(m.blk[Addr(m, i, IND)], e) == Addr(m, i, IND + 1 + e)
    ensures Addr(m, i, IND) == 0 ==> Addr(m, i, IND + 1 + e) == 0
  {
    assert Addr(m, i, IND) != 0 ==> Addr(m, i, IND) in own;
  }

  /** For every inode but x, blocks stay in their slots and data blocks keep their contents. */
  ghost predicate Kept(m: Image, n: Image, x: int) {
    forall j, k {:trigger Addr(m, j, k)} :: j != x && Addr(m, j, k) != 0 ==>
      && Addr(n, j, k) == Addr(m, j, k)
      && (k != IND && 0 <= Addr(m, j, k) < |m.blk| ==>
            Addr(m, j, k) < |n.blk| && n.blk[Addr(m, j, k)] == m.blk[Addr(m, j, k)])
  }

  /** Changing the size of an inode moves no block. */
  lemma SizeFrame(sb: Super, m: Image, own: Owner, i: int, size: nat)
    requires Consistent(sb, m, own) && 0 <= i < |m.ino|
    ensures var n := m.(ino := m.ino[i := m.ino[i].(size := size)]);
            && Consistent(sb, n, own) && Kept(m, n, -1)
            && (forall j, k {:trigger Addr(n, j, k)} :: Addr(n, j, k) == Addr(m, j, k))
  {
    var n := m.(ino := m.ino[i := m.ino[i].(size := size)]);
    assert forall j, k :: Addr(n, j, k) == Addr(m, j, k);
  }

  lemma DirectAddr(m: Image, i: int, k: int)
    requires 0 <= i < |m.ino| && 0 <= k <= IND && |m.ino[i].addrs| == IND + 1
    ensures Addr(m, i, k) == m.ino[i].addrs[k]
  {
  }

  lemma KeptSelf(m: Image, x: int)
    ensures Kept(m, m, x)
  {
  }

  lemma SlotRange(sb: Super, m: Image, own: Owner, i: int, k: int)
    requires Consistent(sb, m, own) && Addr(m, i, k) != 0
    ensures sb.datastart <= Addr(m, i, k) < sb.size
  {
  }

  lemma KeptTrans(sb: Super, m: Image, own: Owner, n: Image, o: Image, x: int)
    requires Consistent(sb, m, own) && Shape(sb, n) && Shape(sb, o) && Kept(m, n, x) && Kept(n, o, x)
    ensures Kept(m, o, x)
  {
    forall j, k | j != x && Addr(m, j, k) != 0
      ensures Addr(o, j, k) == Addr(m, j, k)
      ensures k != IND ==> o.blk[Addr(m, j, k)] == m.blk[Addr(m, j, k)]
    {
      assert Addr(n, j, k) == Addr(m, j, k);
    }
  }

  /** bmap fills an empty direct or indirect-block slot with the block balloc returned. */
  function FillDirect(sb: Super, m: Image, i: int, k: int, b: int): Image
    requires Shape(sb, m) && 0 <= i < |m.ino| && 0 <= k <= IND && 0 <= b < sb.size
  {
    Image(Allocated(sb, m.blk, b), m.ino[i := m.ino[i].(addrs := m.ino[i].addrs[k := b])])
  }

  lemma FillDirectAddr(sb: Super, m: Image, own: Owner, i: int, k: int, b: int, j: int, l: int)
    requires Consistent(sb, m, own) && 0 <= i < |m.ino| && 0 <= k <= IND
    requires 0 <= b < sb.size && !Used(sb, m.blk, b) && Addr(m, i, k) == 0
    ensures var n := FillDirect(sb, m, i, k, b);
            Addr(n, j, l) == if j == i && l == k then b else Addr(m, j, l)
  {
    var n := FillDirect(sb, m, i, k, b);
    AllocatedEffect(sb, m.blk, b);
    if l > IND && l < NSLOTS && 0 <= j < |m.ino| {
      var p := Addr(m, j, IND);
      if j == i && k == IND {
        assert n.blk[b] == Zero();
      } else if p != 0 {
        assert p in own;
        assert n.blk[p] == m.blk[p];
      }
    }
  }

  lemma FillDirectOwns(sb: Super, m: Image, own: Owner, i: int, k: int, b: int)
    requires Consistent(sb, m, own) && 0 <= i < |m.ino| && 0 <= k <= IND
    requires 0 <= b < sb.size && !Used(sb, m.blk, b) && Addr(m, i, k) == 0
    ensures var n := FillDirect(sb, m, i, k, b);
            Consistent(sb, n, own[b := (i, k)]) && Kept(m, n, -1)
  {
    hide Used, Bit, Word, MarkBit, Allocated;
    var n := FillDirect(sb, m, i, k, b);
    AllocatedEffect(sb, m.blk, b);
    forall j, l
      ensures Addr(n, j, l) == if j == i && l == k then b else Addr(m, j, l)
    {
      FillDirectAddr(sb, m, own, i, k, b, j, l);
    }
  }

  /** bmap fills an empty entry of the indirect block. */
  function FillEntry(sb: Super, m: Image, i: int, e: nat, b: nat): Image
    requires Shape(sb, m) && 0 <= i < |m.ino| && e < NINDIRECT && b < sb.size
    requires 0 < Addr(m, i, IND) < sb.size
  {
    var p := Addr(m, i, IND);
    Image(Allocated(sb, m.blk, b)[p := PutWord(m.blk[p], e, b)], m.ino)
  }

  lemma FillEntryAddr(sb: Super, m: Image, own: Owner, i: int, e: nat, b: nat, j: int, l: int)
    requires Consistent(sb, m, own) && 0 <= i < |m.ino| && e < NINDIRECT && Addr(m, i, IND) != 0
    requires b < sb.size && !Used(sb, m.blk, b) && Addr(m, i, IND + 1 + e) == 0
    ensures 0 < Addr(m, i, IND) < sb.size
    ensures var n := FillEntry(sb, m, i, e, b);
            Addr(n, j, l) == if j == i && l == IND + 1 + e then b else Addr(m, j, l)
  {
    hide Used, Bit, MarkBit, Allocated, Word, PutWord;
    var p := Addr(m, i, IND);
    assert p in own;
    var n := FillEntry(sb, m, i, e, b);
    AllocatedEffect(sb, m.blk, b);
    if l > IND && l < NSLOTS && 0 <= j < |m.ino| {
      var q := Addr(m, j, IND);
      if j == i {
        PutWordHit(m.blk[p], e, b);
        if l - IND - 1 != e {
          PutWordMiss(m.blk[p], e, b, l - IND - 1);
        }
      } else if q != 0 {
        assert q in own && q != p;
        assert n.blk[q] == m.blk[q];
      }
    }
  }

  /** The bit of a block depends on its bitmap block only, which is not a data block. */
  lemma UsedFrame(sb: Super, a: seq<Block>, b: seq<Block>, p: int, x: int)
    requires Sized(sb, a) && Sized(sb, b) && sb.datastart <= p < sb.size && b == a[p := b[p]] && 0 <= x < sb.size
    ensures Used(sb, b, x) <==> Used(sb, a, x)
  {
    hide Bit;
    assert BBlock(sb, x) != p;
  }

  lemma FreesFrame(sb: Super, a: seq<Block>, b: seq<Block>, p: int)
    requires Sized(sb, a) && Sized(sb, b) && sb.datastart <= p < sb.size && b == a[p := b[p]]
    ensures Frees(sb, b) == Frees(sb, a)
  {
    hide Used;
    forall x | 0 <= x < sb.size
      ensures Used(sb, b, x) <==> Used(sb, a, x)
    {
      UsedFrame(sb, a, b, p, x);
    }
    FreesSame(sb, a, b);
  }

  /** Blocks before the bitmap, such as the inode blocks, have no part in the books. */
  lemma HeadFrame(sb: Super, m: Image, own: Owner, n: Image)
    requires Consistent(sb, m, own) && Shape(sb, n) && n.ino == m.ino
    requires forall x :: sb.bmapstart <= x < sb.size ==> n.blk[x] == m.blk[x]
    ensures Consistent(sb, n, own) && SameSlots(m, n)
    ensures forall x :: 0 <= x < sb.size ==> (Used(sb, n.blk, x) <==> Used(sb, m.blk, x))
  {
    hide Bit, Word;
    forall j, k
      ensures Addr(n, j, k) == Addr(m, j, k)
    {
      var q := Addr(m, j, IND);
      assert q != 0 ==> q in own;
    }
    forall x | 0 <= x < sb.size
      ensures Used(sb, n.blk, x) <==> Used(sb, m.blk, x)
    {
      assert n.blk[BBlock(sb, x)] == m.blk[BBlock(sb, x)];
    }
  }

  lemma FillEntryBlocks(sb: Super, m: Image, i: int, e: nat, b: nat)
    requires Shape(sb, m) && 0 <= i < |m.ino| && e < NINDIRECT && sb.datastart <= b < sb.size
    requires sb.datastart <= Addr(m, i, IND) < sb.size
    ensures var n := FillEntry(sb, m, i, e, b);
            && Shape(sb, n)
            && (forall x :: 0 <= x < sb.size ==> (Used(sb, n.blk, x) <==> x == b || Used(sb, m.blk, x)))
            && (forall x :: sb.datastart <= x < sb.size && x != b && x != Addr(m, i, IND) ==> n.blk[x] == m.blk[x])
  {
    hide Used, Bit, MarkBit, Allocated, Addr;
    AllocatedEffect(sb, m.blk, b);
    var n, a := FillEntry(sb, m, i, e, b), Allocated(sb, m.blk, b);
    forall x | 0 <= x < sb.size
      ensures Used(sb, n.blk, x) <==> x == b || Used(sb, m.blk, x)
    {
      UsedFrame(sb, a, n.blk, Addr(m, i, IND), x);
    }
  }

  /** A free block put into an empty slot keeps the books. */
  lemma OwnsInsert(sb: Super, m: Image, n: Image, own: Owner, i: int, k: int, b: int)
    requires Consistent(sb, m, own) && Shape(sb, n) && 0 < b < sb.size && !Used(sb, m.blk, b) && Addr(m, i, k) == 0
    requires forall j, l {:trigger Addr(n, j, l)} :: Addr(n, j, l) == if j == i && l == k then b else Addr(m, j, l)
    requires forall x :: 0 <= x < sb.size ==> (Used(sb, n.blk, x) <==> x == b || Used(sb, m.blk, x))
    ensures Consistent(sb, n, own[b := (i, k)])
  {
  }

  lemma FillEntryOwns(sb: Super, m: Image, own: Owner, i: int, e: nat, b: nat)
    requires Consistent(sb, m, own) && 0 <= i < |m.ino| && e < NINDIRECT && Addr(m, i, IND) != 0
    requires b < sb.size && !Used(sb, m.blk, b) && Addr(m, i, IND + 1 + e) == 0
    ensures 0 < Addr(m, i, IND) < sb.size
    ensures var n := FillEntry(sb, m, i, e, b);
            Consistent(sb, n, own[b := (i, IND + 1 + e)]) && Kept(m, n, -1)
  {
    hide Used, Bit, Word, Addr;
    var p := Addr(m, i, IND);
    assert p in own && own[p] == (i, IND);
    var n := FillEntry(sb, m, i, e, b);
    FillEntryBlocks(sb, m, i, e, b);
    forall j, l
      ensures Addr(n, j, l) == if j == i && l == IND + 1 + e then b else Addr(m, j, l)
    {
      FillEntryAddr(sb, m, own, i, e, b, j, l);
    }
    OwnsInsert(sb, m, n, own, i, IND + 1 + e, b);
  }

  // ----- what itrunc does, one bfree at a time -----

  /** Free a direct block, or at last the indirect block, and empty its slot. */
  function DropDirect(sb: Super, m: Image, i: int, k: int): Image
    requires Shape(sb, m) && 0 <= i < |m.ino| && 0 <= k <= IND && 0 <= Addr(m, i, k) < sb.size
  {
    Image(MarkBit(sb, m.blk, Addr(m, i, k), false), m.ino[i := m.ino[i].(addrs := m.ino[i].addrs[k := 0])])
  }

  lemma DropDirectAddr(sb: Super, m: Image, own: Owner, i: int, k: int, dn: int, j: int, l: int)
    requires Shape(sb, m) && Owns(sb, m, own, i, dn) && 0 <= i < |m.ino| && 0 <= k <= IND && Addr(m, i, k) != 0
    ensures 0 < Addr(m, i, k) < sb.size
    ensures var n := DropDirect(sb, m, i, k);
            Addr(n, j, l) == if j == i && (l == k || (k == IND && l > IND)) then 0 else Addr(m, j, l)
  {
    hide Used, Bit, MarkBit, Word;
    var b := Addr(m, i, k);
    assert b in own;
    FreedEffect(sb, m.blk, b);
    var n := DropDirect(sb, m, i, k);
    if l > IND && l < NSLOTS && 0 <= j < |m.ino| {
      var q := Addr(m, j, IND);
      if q != 0 {
        assert q in own;
        assert n.blk[q] == m.blk[q];
      }
    }
  }

  lemma DropDirectOwns(sb: Super, m: Image, own: Owner, i: int, k: int, dn: int)
    requires Shape(sb, m) && Owns(sb, m, own, i, dn) && 0 <= i < |m.ino| && 0 <= k <= IND && Addr(m, i, k) != 0
    requires if k == IND then dn == NINDIRECT else dn == 0
    ensures 0 < Addr(m, i, k) < sb.size
    ensures var n := DropDirect(sb, m, i, k);
            Consistent(sb, n, own - {Addr(m, i, k)}) && Kept(m, n, i)
  {
    hide Used, Bit, MarkBit, Word;
    var b := Addr(m, i, k);
    assert b in own && own[b] == (i, k);
    FreedEffect(sb, m.blk, b);
    var n := DropDirect(sb, m, i, k);
    forall j, l
      ensures Addr(n, j, l) == if j == i && (l == k || (k == IND && l > IND)) then 0 else Addr(m, j, l)
    {
      DropDirectAddr(sb, m, own, i, k, dn, j, l);
    }
  }

  /** Clearing a bit moves no block number. */
  lemma UnmarkAddr(sb: Super, m: Image, own: Owner, di: int, dn: int, b: int, j: int, k: int)
    requires Shape(sb, m) && Owns(sb, m, own, di, dn) && 0 <= b < sb.size
    ensures Addr(Image(MarkBit(sb, m.blk, b, false), m.ino), j, k) == Addr(m, j, k)
  {
    FreedEffect(sb, m.blk, b);
    var q := Addr(m, j, IND);
    assert q != 0 ==> q in own;
  }

  /** Free the block of entry e; the entry itself stays in the indirect block. */
  lemma DropEntryOwns(sb: Super, m: Image, own: Owner, i: int, e: nat)
    requires Shape(sb, m) && Owns(sb, m, own, i, e) && 0 <= i < |m.ino| && e < NINDIRECT
    requires Addr(m, i, IND + 1 + e) != 0
    ensures var b := Addr(m, i, IND + 1 + e);
            0 < b < sb.size && Used(sb, m.blk, b)
            && var n := Image(MarkBit(sb, m.blk, b, false), m.ino);
            Shape(sb, n) && Owns(sb, n, own - {b}, i, e + 1) && Kept(m, n, i) && SameSlots(m, n)
  {
    hide Addr, Used, MarkBit, Bit;
    var b := Addr(m, i, IND + 1 + e);
    assert b in own && own[b] == (i, IND + 1 + e);
    FreedEffect(sb, m.blk, b);
    var n := Image(MarkBit(sb, m.blk, b, false), m.ino);
    forall j, k
      ensures Addr(n, j, k) == Addr(m, j, k)
    {
      UnmarkAddr(sb, m, own, i, e, b, j, k);
    }
  }

  lemma SkipEntryOwns(sb: Super, m: Image, own: Owner, i: int, e: nat)
    requires Shape(sb, m) && Owns(sb, m, own, i, e) && 0 <= i < |m.ino| && e < NINDIRECT
    requires Addr(m, i, IND + 1 + e) == 0
    ensures Owns(sb, m, own, i, e + 1)
  {
  }
}
