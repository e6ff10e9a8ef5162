/** Files as byte sequences over an image, and the effect of writing one block. */
module FsFile {
  import opened Params
  import opened FsImage

  /** The slot of the n-th block of a file; entries of the indirect block follow its pointer. */
  function DataSlot(n: int): int {
    if n < NDIRECT then n else n + 1
  }

  function BlockOf(m: Image, i: int, n: int): int {
    Addr(m, i, DataSlot(n))
  }

  function ByteAt(m: Image, i: int, p: int): int {
    var a := BlockOf(m, i, p / 512);
    if 0 < a < |m.blk| && |m.blk[a]| == BSIZE then m.blk[a][p % 512] else 0
  }

  function Content(m: Image, i: int): (c: seq<int>)
    requires 0 <= i < |m.ino|
    ensures |c| == m.ino[i].size
    ensures forall p :: 0 <= p < |c| ==> c[p] == ByteAt(m, i, p)
  {
    seq(m.ino[i].size, p => ByteAt(m, i, p))
  }

  function Blocks(size: nat): nat {
    (size + BSIZE - 1) / 512
  }

  /** Every block below the end of the file is there. */
  ghost predicate HoleFree(m: Image, i: int) {
    0 <= i < |m.ino| ==>
      && m.ino[i].size <= MAXBYTES
      && forall n :: 0 <= n < Blocks(m.ino[i].size) ==> BlockOf(m, i, n) != 0
  }

  ghost predicate NoHoles(m: Image) {
    forall i :: 0 <= i < |m.ino| ==> HoleFree(m, i)
  }

  /** What writing src at off makes of a file: overwrite, and extend past the end if need be. */
  function Splice(c: seq<int>, off: nat, src: seq<int>): (r: seq<int>)
    requires off <= |c|
    ensures |r| == if off + |src| > |c| then off + |src| else |c|
    ensures forall p :: 0 <= p < |r| ==> r[p] == if off <= p < off + |src| then src[p - off] else c[p]
  {
    c[..off] + src + if off + |src| < |c| then c[off + |src|..] else []
  }

  /** memmove into a block buffer. */
  function Overlay(b: Block, o: nat, src: seq<int>): (r: Block)
    requires o + |src| <= |b|
    ensures |r| == |b|
    ensures forall q :: 0 <= q < |b| ==> r[q] == if o <= q < o + |src| then src[q - o] else b[q]
  {
    b[..o] + src + b[o + |src|..]
  }

  function Store(m: Image, a: int, b: Block): Image
    requires 0 <= a < |m.blk|
  {
    m.(blk := m.blk[a := b])
  }

  /** Writing a data block moves no block number. */
  lemma StoreAddr(sb: Super, m: Image, own: Owner, i: int, n: int, b: Block, j: int, k: int)
    requires Consistent(sb, m, own) && BlockOf(m, i, n) != 0 && DataSlot(n) != IND && |b| == BSIZE
    ensures 0 < BlockOf(m, i, n) < |m.blk|
    ensures Addr(Store(m, BlockOf(m, i, n), b), j, k) == Addr(m, j, k)
  {
    var a := BlockOf(m, i, n);
    assert a in own && own[a] == (i, DataSlot(n));
    var p := Addr(m, j, IND);
    if p != 0 {
      assert p in own && own[p] == (j, IND);
    }
  }

  /** Writing a data block keeps the books and every other file. */
  lemma StoreOwns(sb: Super, m: Image, own: Owner, i: int, n: int, b: Block)
    requires Consistent(sb, m, own) && 0 <= n < MAXFILE && BlockOf(m, i, n) != 0 && |b| == BSIZE
    ensures 0 < BlockOf(m, i, n) < |m.blk|
    ensures var s := Store(m, BlockOf(m, i, n), b);
            && Consistent(sb, s, own)
            && (forall j, k {:trigger Addr(s, j, k)} :: Addr(s, j, k) == Addr(m, j, k))
            && Kept(m, s, i)
  {
    var a := BlockOf(m, i, n);
    assert a in own && own[a] == (i, DataSlot(n));
    var s := Store(m, a, b);
    forall j, k
      ensures Addr(s, j, k) == Addr(m, j, k)
    {
      StoreAddr(sb, m, own, i, n, b, j, k);
    }
    forall x | 0 <= x < sb.size
      ensures Used(sb, s.blk, x) <==> Used(sb, m.blk, x)
    {
      assert s.blk[BBlock(sb, x)] == m.blk[BBlock(sb, x)];
    }
  }

  /** Within the file, writing block n changes the bytes of block n only. */
  lemma StoreByte(sb: Super, m: Image, own: Owner, i: int, n: int, b: Block, p: int)
    requires Consistent(sb, m, own) && 0 <= n < MAXFILE && BlockOf(m, i, n) != 0 && |b| == BSIZE && 0 <= p
    ensures 0 < BlockOf(m, i, n) < |m.blk|
    ensures ByteAt(Store(m, BlockOf(m, i, n), b), i, p) ==
      if p / 512 == n then b[p % 512] else ByteAt(m, i, p)
  {
    var a := BlockOf(m, i, n);
    assert a in own && own[a] == (i, DataSlot(n));
    StoreAddr(sb, m, own, i, n, b, i, DataSlot(p / 512));
    var c := BlockOf(m, i, p / 512);
    if p / 512 != n && c != 0 {
      assert c in own && own[c] == (i, DataSlot(p / 512));
      assert DataSlot(p / 512) != DataSlot(n);
    }
  }

  /** What is kept slot by slot is kept byte by byte. */
  lemma KeptBytes(sb: Super, m: Image, n: Image, own: Owner, x: int, j: int, p: int)
    requires Consistent(sb, m, own) && Shape(sb, n) && Kept(m, n, x) && j != x
    requires 0 <= p && BlockOf(m, j, p / 512) != 0
    ensures ByteAt(n, j, p) == ByteAt(m, j, p) && BlockOf(n, j, p / 512) == BlockOf(m, j, p / 512)
  {
    var a := BlockOf(m, j, p / 512);
    assert a in own;
    assert DataSlot(p / 512) != IND;
  }

  /** A file whose slots and size are kept has the same content. */
  lemma KeptContent(sb: Super, m: Image, n: Image, own: Owner, x: int, j: int)
    requires Consistent(sb, m, own) && Shape(sb, n) && Kept(m, n, x) && j != x
    requires 0 <= j < |m.ino| && n.ino[j].size == m.ino[j].size && HoleFree(m, j)
    ensures HoleFree(n, j) && Content(n, j) == Content(m, j)
  {
    forall p | 0 <= p < m.ino[j].size
      ensures ByteAt(n, j, p) == ByteAt(m, j, p)
    {
      assert 0 <= p / 512 < Blocks(m.ino[j].size);
      KeptBytes(sb, m, n, own, x, j, p);
    }
    forall q | 0 <= q < Blocks(m.ino[j].size)
      ensures BlockOf(n, j, q) != 0
    {
      assert BlockOf(m, j, q) != 0;
    }
  }

  // ----- readi, block by block -----

  /** Within one block of a hole-free file, buffer bytes are file bytes. */
  lemma ReadChunk(sb: Super, m: Image, own: Owner, i: int, at: nat, w: nat)
    requires Consistent(sb, m, own) && 0 <= i < |m.ino| && HoleFree(m, i)
    requires 0 < w && at + w <= m.ino[i].size && at % 512 + w <= BSIZE
    ensures at / 512 < MAXFILE
    ensures var a := BlockOf(m, i, at / 512);
            && 0 < a < |m.blk|
            && m.blk[a][at % 512..at % 512 + w] == Content(m, i)[at..at + w]
  {
    var bn := at / 512;
    assert 0 <= bn < Blocks(m.ino[i].size) <= MAXFILE;
    var a := BlockOf(m, i, bn);
    assert a != 0 && a in own;
    var o := at % 512;
    var x, y := m.blk[a][o..o + w], Content(m, i)[at..at + w];
    forall q | 0 <= q < w
      ensures x[q] == y[q]
    {
      assert (at + q) / 512 == bn && (at + q) % 512 == o + q;
    }
  }

  // ----- writei, block by block -----

  /** Of src at off, the first tot bytes have been written to file i; everything else reads as in m. */
  ghost predicate Written(m: Image, n: Image, i: int, off: nat, src: seq<int>, tot: nat)
    requires tot <= |src|
  {
    && Kept(m, n, i)
    && (forall k {:trigger Addr(m, i, k)} :: Addr(m, i, k) != 0 ==> Addr(n, i, k) == Addr(m, i, k))
    && (forall j, k {:trigger Addr(n, j, k)} :: j != i ==> Addr(n, j, k) == Addr(m, j, k))
    && (forall p {:trigger ByteAt(n, i, p)} :: 0 <= p && !(off <= p < off + tot) ==> ByteAt(n, i, p) == ByteAt(m, i, p))
    && (forall p {:trigger ByteAt(n, i, p)} :: off <= p < off + tot ==>
          BlockOf(n, i, p / 512) != 0 && ByteAt(n, i, p) == src[p - off])
  }

  /** bmap of block bn leads from n to o: a missing block comes as zeros, and no other data slot changes. */
  ghost predicate Mapped(n: Image, o: Image, i: int, bn: int) {
    && Kept(n, o, -1)
    && 0 < BlockOf(o, i, bn) < |o.blk|
    && (BlockOf(n, i, bn) == 0 ==> o.blk[BlockOf(o, i, bn)] == Zero())
    && (forall x {:trigger BlockOf(o, i, x)} :: x != bn ==> BlockOf(o, i, x) == BlockOf(n, i, x))
    && (forall j, k {:trigger Addr(o, j, k)} :: j != i ==> Addr(o, j, k) == Addr(n, j, k))
  }

  /** One byte after one turn of the loop: bmap leads from n to o, then block bn is overlaid. */
  lemma WriteStepByte(sb: Super, n: Image, own: Owner, o: Image, own': Owner, i: int, at: nat, w: seq<int>, p: int)
    requires Consistent(sb, n, own) && Consistent(sb, o, own') && Mapped(n, o, i, at / 512) && i != -1
    requires at + |w| <= MAXBYTES && at % 512 + |w| <= BSIZE && |w| > 0 && 0 <= p
    ensures var a := BlockOf(o, i, at / 512);
            var s := Store(o, a, Overlay(o.blk[a], at % 512, w));
            && (BlockOf(n, i, p / 512) != 0 || p / 512 == at / 512 ==> BlockOf(s, i, p / 512) != 0)
            && (at <= p < at + |w| ==> p / 512 == at / 512 && ByteAt(s, i, p) == w[p - at])
            && (!(at <= p < at + |w|) ==> ByteAt(s, i, p) == ByteAt(n, i, p))
  {
    hide Used, Bit, Word, Kept, Addr;
    var bn := at / 512;
    var a := BlockOf(o, i, bn);
    var b := Overlay(o.blk[a], at % 512, w);
    StoreByte(sb, o, own', i, bn, b, p);
    StoreAddr(sb, o, own', i, bn, b, i, DataSlot(p / 512));
    if BlockOf(n, i, p / 512) != 0 {
      KeptBytes(sb, n, o, own, -1, i, p);
    }
  }

  lemma KeptSlots(n: Image, o: Image, i: int)
    requires Kept(n, o, -1) && i != -1
    ensures Kept(n, o, i)
    ensures forall k {:trigger Addr(n, i, k)} :: Addr(n, i, k) != 0 ==> Addr(o, i, k) == Addr(n, i, k)
  {
  }

  lemma WriteStep(sb: Super, m: Image, own0: Owner, n: Image, own: Owner, o: Image, own': Owner,
                  i: int, off: nat, src: seq<int>, tot: nat, w: nat)
    requires Consistent(sb, m, own0) && Consistent(sb, n, own) && Consistent(sb, o, own') && i != -1
    requires tot + w <= |src| && off + tot + w <= MAXBYTES && (off + tot) % 512 + w <= BSIZE && w > 0
    requires Written(m, n, i, off, src, tot) && Mapped(n, o, i, (off + tot) / 512)
    ensures var a := BlockOf(o, i, (off + tot) / 512);
            var s := Store(o, a, Overlay(o.blk[a], (off + tot) % 512, src[tot..tot + w]));
            Consistent(sb, s, own') && Written(m, s, i, off, src, tot + w)
  {
    hide Used, Bit, Word, Kept, Addr, ByteAt, Overlay;
    var at := off + tot;
    var a := BlockOf(o, i, at / 512);
    var ws := src[tot..tot + w];
    var b := Overlay(o.blk[a], at % 512, ws);
    var s := Store(o, a, b);
    StoreOwns(sb, o, own', i, at / 512, b);
    KeptSlots(n, o, i);
    KeptTrans(sb, m, own0, n, o, i);
    KeptTrans(sb, m, own0, o, s, i);
    forall p | 0 <= p
      ensures !(off <= p < at + w) ==> ByteAt(s, i, p) == ByteAt(m, i, p)
      ensures off <= p < at + w ==> BlockOf(s, i, p / 512) != 0 && ByteAt(s, i, p) == src[p - off]
    {
      WriteStepByte(sb, n, own, o, own', i, at, ws, p);
      var before := ByteAt(n, i, p);
    }
  }

  /** A file none of whose slots changed, and none of whose blocks, reads the same. */
  lemma SameContent(sb: Super, m: Image, own: Owner, n: Image, x: int, j: int)
    requires Consistent(sb, m, own) && Shape(sb, n) && Kept(m, n, x) && j != x
    requires forall k {:trigger Addr(n, j, k)} :: Addr(n, j, k) == Addr(m, j, k)
    requires 0 <= j < |m.ino| && n.ino[j].size == m.ino[j].size
    ensures Content(n, j) == Content(m, j) && (HoleFree(m, j) ==> HoleFree(n, j))
  {
    hide Addr, Kept;
    assert forall q :: BlockOf(n, j, q) == BlockOf(m, j, q);
    forall p | 0 <= p < m.ino[j].size
      ensures ByteAt(n, j, p) == ByteAt(m, j, p)
    {
      if BlockOf(m, j, p / 512) != 0 {
        KeptBytes(sb, m, n, own, x, j, p);
      }
    }
  }

  /** A finished write is a splice of the byte sequence, touches no other file, and leaves no new hole. */
  lemma WrittenContent(sb: Super, m: Image, own0: Owner, n: Image, own: Owner, i: int, off: nat, src: seq<int>, size: nat)
    requires Consistent(sb, m, own0) && Consistent(sb, n, own)
    requires 0 <= i < |m.ino| && off <= m.ino[i].size && off + |src| <= MAXBYTES
    requires Written(m, n, i, off, src, |src|)
    requires forall j :: 0 <= j < |m.ino| && j != i ==> n.ino[j].size == m.ino[j].size
    requires size == if off + |src| > m.ino[i].size then off + |src| else m.ino[i].size
    requires n.ino[i].size == size
    ensures Content(n, i) == Splice(Content(m, i), off, src)
    ensures forall j :: 0 <= j < |m.ino| && j != i ==> Content(n, j) == Content(m, j)
    ensures NoHoles(m) ==> NoHoles(n)
  {
    hide Addr, Kept;
    forall p | 0 <= p < size
      ensures ByteAt(n, i, p) == Splice(Content(m, i), off, src)[p]
    {
      var after := ByteAt(n, i, p);
    }
    forall j | 0 <= j < |m.ino| && j != i
      ensures Content(n, j) == Content(m, j) && (HoleFree(m, j) ==> HoleFree(n, j))
    {
      SameContent(sb, m, own0, n, i, j);
    }
    if NoHoles(m) {
      assert HoleFree(m, i);
      forall q | 0 <= q < Blocks(size)
        ensures BlockOf(n, i, q) != 0
      {
        assert 0 <= q * 512 < size && q * 512 / 512 == q;
        var after := ByteAt(n, i, q * 512);
        assert !(off <= q * 512 < off + |src|) && q < Blocks(m.ino[i].size) ==> BlockOf(m, i, q) != 0;
        assert Addr(m, i, DataSlot(q)) != 0 ==> BlockOf(n, i, q) != 0;
      }
    }
  }
}
