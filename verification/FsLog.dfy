/**
What bmap and the loop of writei do to an image, told from the image before them: which slots they
fill, with which blocks, and which blocks they log.
*/
module FsLog {
  import opened Params
  import opened FsImage
  import opened FsFile
  import LogDisk

  /** The empty slots bmap fills for block bn of inode i, in its order. */
  function Needs(m: Image, i: int, bn: int): seq<int> {
    (if bn >= NDIRECT && Addr(m, i, IND) == 0 then [IND] else [])
    + (if BlockOf(m, i, bn) == 0 then [DataSlot(bn)] else [])
  }

  /** The empty slots the loop of writei fills for blocks f .. f + cnt - 1; the indirect block once. */
  function SpanNeeds(m: Image, i: int, f: int, cnt: nat): seq<int> {
    if cnt == 0 then [] else
      var s, bn := SpanNeeds(m, i, f, cnt - 1), f + cnt - 1;
      s
      + (if bn >= NDIRECT && Addr(m, i, IND) == 0 && IND !in s then [IND] else [])
      + (if BlockOf(m, i, bn) == 0 then [DataSlot(bn)] else [])
  }

  /** n is m with the slots s of inode i filled, in order, from the front of the free blocks. */
  ghost predicate Filled(sb: Super, m: Image, n: Image, i: int, s: seq<int>)
    requires Shape(sb, m) && Shape(sb, n)
  {
    && |s| <= |Frees(sb, m.blk)|
    && Frees(sb, n.blk) == Frees(sb, m.blk)[|s|..]
    && (forall j :: 0 <= j < |s| ==> Addr(n, i, s[j]) == Frees(sb, m.blk)[j])
    && (forall j, k {:trigger Addr(n, j, k)} :: !(j == i && k in s) ==> Addr(n, j, k) == Addr(m, j, k))
  }

  /** The block in slot k of inode i once the slots s are filled. */
  function At(sb: Super, m: Image, i: int, s: seq<int>, k: int): int
    requires Shape(sb, m) && |s| <= |Frees(sb, m.blk)|
  {
    if s == [] then Addr(m, i, k)
    else if s[|s| - 1] == k then Frees(sb, m.blk)[|s| - 1]
    else At(sb, m, i, s[..|s| - 1], k)
  }

  function Elems(q: seq<int>): set<int> {
    set x | x in q
  }

  /** The bitmap blocks of a list of blocks. */
  function Maps(sb: Super, q: seq<int>): (r: seq<int>)
    ensures |r| == |q|
  {
    seq(|q|, j requires 0 <= j < |q| => BBlock(sb, q[j]))
  }

  /** What filling the slots s logs: bitmap block and new block each time, the indirect block for an entry. */
  function FillLog(sb: Super, m: Image, i: int, s: seq<int>): set<int>
    requires Shape(sb, m) && |s| <= |Frees(sb, m.blk)|
  {
    var b := Frees(sb, m.blk)[..|s|];
    Elems(b) + Elems(Maps(sb, b)) + if exists k :: k in s && k > IND then {At(sb, m, i, s, IND)} else {}
  }

  /** Blocks f .. f + cnt - 1 of file i once the slots s are filled. */
  function Data(sb: Super, m: Image, i: int, s: seq<int>, f: int, cnt: nat): (r: seq<int>)
    requires Shape(sb, m) && |s| <= |Frees(sb, m.blk)|
    ensures |r| == cnt
  {
    seq(cnt, x requires 0 <= x < cnt => At(sb, m, i, s, DataSlot(f + x)))
  }

  /** There are enough free blocks to write blocks f .. f + cnt - 1 of file i. */
  predicate Room(sb: Super, m: Image, i: int, f: int, cnt: nat)
    requires Shape(sb, m)
  {
    |SpanNeeds(m, i, f, cnt)| <= |Frees(sb, m.blk)|
  }

  /** What the loop of writei logs for blocks f .. f + cnt - 1 of file i. */
  function WriteLog(sb: Super, m: Image, i: int, f: int, cnt: nat): set<int>
    requires Shape(sb, m) && Room(sb, m, i, f, cnt)
  {
    var s := SpanNeeds(m, i, f, cnt);
    FillLog(sb, m, i, s) + Elems(Data(sb, m, i, s, f, cnt))
  }

  // ----- filling slots -----

  /** The free blocks are data blocks, and none of them is in a slot. */
  lemma FreesAreNew(sb: Super, m: Image, own: Owner, b: int)
    requires Consistent(sb, m, own) && b in Frees(sb, m.blk)
    ensures 0 < sb.datastart <= b < sb.size && b !in own
  {
    hide Used;
  }

  lemma {:induction false} AtFilled(sb: Super, m: Image, n: Image, i: int, s: seq<int>, k: int)
    requires Shape(sb, m) && Shape(sb, n) && Filled(sb, m, n, i, s)
    ensures At(sb, m, i, s, k) == Addr(n, i, k)
  {
    assert s[..|s|] == s;
    AtPrefix(sb, m, n, i, s, |s|, k);
  }

  lemma {:induction false} AtPrefix(sb: Super, m: Image, n: Image, i: int, s: seq<int>, j: nat, k: int)
    requires Shape(sb, m) && Shape(sb, n) && Filled(sb, m, n, i, s) && j <= |s| && k !in s[j..]
    ensures At(sb, m, i, s[..j], k) == Addr(n, i, k)
  {
    hide Addr, Frees;
    if j > 0 && s[j - 1] != k {
      assert s[..j][..j - 1] == s[..j - 1];
      assert s[j - 1..] == [s[j - 1]] + s[j..];
      AtPrefix(sb, m, n, i, s, j - 1, k);
    } else if j == 0 {
      assert s[0..] == s;
    }
  }

  lemma FilledNone(sb: Super, m: Image, i: int)
    requires Shape(sb, m)
    ensures Filled(sb, m, m, i, [])
  {
  }

  lemma FilledTrans(sb: Super, m: Image, n: Image, o: Image, i: int, s: seq<int>, t: seq<int>)
    requires Shape(sb, m) && Shape(sb, n) && Shape(sb, o) && Filled(sb, m, n, i, s) && Filled(sb, n, o, i, t)
    requires forall k :: k in s ==> k !in t
    ensures Filled(sb, m, o, i, s + t)
  {
    hide Addr, Frees;
    var fr := Frees(sb, m.blk);
    forall j | 0 <= j < |s + t|
      ensures Addr(o, i, (s + t)[j]) == fr[j]
    {
      if j < |s| {
        assert s[j] in s;
      }
    }
  }

  /** Storing into a data block fills nothing. */
  lemma FilledStore(sb: Super, m: Image, n: Image, o: Image, i: int, s: seq<int>)
    requires Shape(sb, m) && Shape(sb, n) && Shape(sb, o) && Filled(sb, m, n, i, s)
    requires forall j, k {:trigger Addr(o, j, k)} :: Addr(o, j, k) == Addr(n, j, k)
    requires forall x :: 0 <= x < sb.size ==> (Used(sb, o.blk, x) <==> Used(sb, n.blk, x))
    ensures Filled(sb, m, o, i, s)
  {
    hide Addr, Used, Frees;
    FreesSame(sb, n.blk, o.blk);
  }

  // ----- the slots of a whole write -----

  /** The block number a data slot stands for. */
  function BlockNo(k: int): int {
    if k < IND then k else k - 1
  }

  lemma {:induction false} SpanSlots(m: Image, i: int, f: nat, cnt: nat, k: int)
    requires k in SpanNeeds(m, i, f, cnt)
    ensures Addr(m, i, k) == 0 && 0 <= k && (k == IND || (f <= BlockNo(k) < f + cnt && k == DataSlot(BlockNo(k))))
    ensures k >= IND && Addr(m, i, IND) == 0 ==> IND in SpanNeeds(m, i, f, cnt)
  {
    hide Addr;
    if k in SpanNeeds(m, i, f, cnt - 1) {
      SpanSlots(m, i, f, cnt - 1, k);
    }
  }

  lemma DistinctSnoc(s: seq<int>, x: int)
    requires LogDisk.Distinct(s) && x !in s
    ensures LogDisk.Distinct(s + [x])
  {
  }

  lemma {:induction false} SpanDistinct(m: Image, i: int, f: nat, cnt: nat)
    ensures LogDisk.Distinct(SpanNeeds(m, i, f, cnt))
  {
    hide Addr, LogDisk.Distinct;
    if cnt == 0 {
      NoneDistinct();
    } else {
      SpanDistinct(m, i, f, cnt - 1);
      var s, k := SpanNeeds(m, i, f, cnt - 1), DataSlot(f + cnt - 1);
      if k in s {
        SpanSlots(m, i, f, cnt - 1, k);
      }
      var t := if f + cnt - 1 >= NDIRECT && Addr(m, i, IND) == 0 && IND !in s then s + [IND] else s;
      if IND !in s {
        DistinctSnoc(s, IND);
      }
      if k !in t {
        DistinctSnoc(t, k);
      }
      assert SpanNeeds(m, i, f, cnt) == if BlockOf(m, i, f + cnt - 1) == 0 then t + [k] else t;
    }
  }

  lemma NoneDistinct()
    ensures LogDisk.Distinct<int>([])
  {
  }

  lemma {:induction false} SpanHas(m: Image, i: int, f: int, cnt: nat, x: int)
    requires f <= x < f + cnt && BlockOf(m, i, x) == 0
    ensures DataSlot(x) in SpanNeeds(m, i, f, cnt)
  {
    hide Addr;
    if x < f + cnt - 1 {
      SpanHas(m, i, f, cnt - 1, x);
    }
  }

  /** A slot once filled, or full from the start, is not empty. */
  lemma FilledNonzero(sb: Super, m: Image, own: Owner, n: Image, i: int, s: seq<int>, k: int)
    requires Consistent(sb, m, own) && Shape(sb, n) && Filled(sb, m, n, i, s)
    requires forall l :: l in s ==> Addr(m, i, l) == 0
    ensures Addr(n, i, k) != 0 <==> Addr(m, i, k) != 0 || k in s
  {
    hide Addr, Frees, Owns;
    if k in s {
      var j :| 0 <= j < |s| && s[j] == k;
      FreesAreNew(sb, m, own, Frees(sb, m.blk)[j]);
    }
  }

  /** After the blocks before it, bmap of the next block fills what is left of the longer span. */
  lemma SpanNext(sb: Super, m: Image, own: Owner, n: Image, i: int, f: nat, cnt: nat)
    requires Consistent(sb, m, own) && Shape(sb, n) && Filled(sb, m, n, i, SpanNeeds(m, i, f, cnt))
    ensures SpanNeeds(m, i, f, cnt + 1) == SpanNeeds(m, i, f, cnt) + Needs(n, i, f + cnt)
    ensures forall k :: k in SpanNeeds(m, i, f, cnt) ==> k !in Needs(n, i, f + cnt)
    ensures forall x :: f <= x < f + cnt ==> BlockOf(n, i, x) != 0
    ensures (exists k :: k in SpanNeeds(m, i, f, cnt) && k > IND) ==> Addr(n, i, IND) != 0
  {
    hide Addr, Filled, Consistent;
    var s, k := SpanNeeds(m, i, f, cnt), DataSlot(f + cnt);
    forall l | l in s
      ensures Addr(m, i, l) == 0 && l != k && (l > IND && Addr(m, i, IND) == 0 ==> IND in s)
    {
      SpanSlots(m, i, f, cnt, l);
    }
    FilledNonzero(sb, m, own, n, i, s, IND);
    FilledNonzero(sb, m, own, n, i, s, k);
    forall x | f <= x < f + cnt
      ensures BlockOf(n, i, x) != 0
    {
      FilledNonzero(sb, m, own, n, i, s, DataSlot(x));
      if BlockOf(m, i, x) == 0 {
        SpanHas(m, i, f, cnt, x);
      }
    }
  }

  lemma ElemsConcat(a: seq<int>, b: seq<int>)
    ensures Elems(a + b) == Elems(a) + Elems(b)
  {
  }

  lemma MapsConcat(sb: Super, a: seq<int>, b: seq<int>)
    ensures Maps(sb, a + b) == Maps(sb, a) + Maps(sb, b)
  {
  }

  lemma FillLogTrans(sb: Super, m: Image, n: Image, o: Image, i: int, s: seq<int>, t: seq<int>)
    requires Shape(sb, m) && Shape(sb, n) && Shape(sb, o) && Filled(sb, m, n, i, s) && Filled(sb, n, o, i, t)
    requires forall k :: k in s ==> k !in t
    requires IND in t ==> forall k :: k in s ==> k <= IND
    ensures |s + t| <= |Frees(sb, m.blk)|
    ensures FillLog(sb, m, i, s + t) == FillLog(sb, m, i, s) + FillLog(sb, n, i, t)
  {
    hide Addr, Frees, At, Elems, Maps;
    FilledTrans(sb, m, n, o, i, s, t);
    AtFilled(sb, m, n, i, s, IND);
    AtFilled(sb, n, o, i, t, IND);
    AtFilled(sb, m, o, i, s + t, IND);
    var fr := Frees(sb, m.blk);
    assert fr[..|s + t|] == fr[..|s|] + fr[|s|..][..|t|];
    ElemsConcat(fr[..|s|], fr[|s|..][..|t|]);
    MapsConcat(sb, fr[..|s|], fr[|s|..][..|t|]);
    ElemsConcat(Maps(sb, fr[..|s|]), Maps(sb, fr[|s|..][..|t|]));
    EntryConcat(s, t);
  }

  lemma EntryConcat(s: seq<int>, t: seq<int>)
    ensures (exists k :: k in s + t && k > IND) <==> (exists k :: k in s && k > IND) || exists k :: k in t && k > IND
  {
    if k :| k in s && k > IND {
      assert k in s + t;
    }
    if k :| k in t && k > IND {
      assert k in s + t;
    }
  }

  /** What one more turn of writei's loop adds to the log. */
  lemma WriteLogStep(sb: Super, m: Image, own: Owner, n: Image, o: Image, i: int, f: nat, cnt: nat)
    requires Consistent(sb, m, own) && Shape(sb, n) && Shape(sb, o)
    requires Filled(sb, m, n, i, SpanNeeds(m, i, f, cnt)) && Filled(sb, n, o, i, Needs(n, i, f + cnt))
    ensures Filled(sb, m, o, i, SpanNeeds(m, i, f, cnt + 1))
    ensures WriteLog(sb, m, i, f, cnt + 1) ==
      WriteLog(sb, m, i, f, cnt) + FillLog(sb, n, i, Needs(n, i, f + cnt)) + {BlockOf(o, i, f + cnt)}
  {
    hide Addr, Frees, At, Elems, Owns, SpanNeeds, FillLog, Filled;
    var s, t := SpanNeeds(m, i, f, cnt), Needs(n, i, f + cnt);
    SpanNext(sb, m, own, n, i, f, cnt);
    FilledTrans(sb, m, n, o, i, s, t);
    FillLogTrans(sb, m, n, o, i, s, t);
    var a, b := Data(sb, m, i, s, f, cnt), Data(sb, m, i, s + t, f, cnt + 1);
    forall x | 0 <= x <= cnt
      ensures b[x] == BlockOf(o, i, f + x) && (x < cnt ==> b[x] == a[x])
    {
      AtFilled(sb, m, o, i, s + t, DataSlot(f + x));
      if x < cnt {
        AtFilled(sb, m, n, i, s, DataSlot(f + x));
        FilledOld(sb, n, o, i, t, DataSlot(f + x));
      }
    }
    assert b == a + [BlockOf(o, i, f + cnt)];
    ElemsConcat(a, [BlockOf(o, i, f + cnt)]);
    ElemsOne(BlockOf(o, i, f + cnt));
  }

  lemma ElemsOne(x: int)
    ensures Elems([x]) == {x}
  {
  }

  lemma FilledOld(sb: Super, m: Image, n: Image, i: int, s: seq<int>, k: int)
    requires Shape(sb, m) && Shape(sb, n) && Filled(sb, m, n, i, s) && k !in s
    ensures Addr(n, i, k) == Addr(m, i, k)
  {
  }

  /** Longer spans need no less. */
  lemma {:induction false} SpanMonotone(m: Image, i: int, f: int, a: nat, b: nat)
    requires a <= b
    ensures |SpanNeeds(m, i, f, a)| <= |SpanNeeds(m, i, f, b)|
  {
    hide Addr;
    if a < b {
      SpanMonotone(m, i, f, a, b - 1);
    }
  }

  /** Blocks that are all there need nothing. */
  lemma {:induction false} SpanNone(m: Image, i: int, f: int, cnt: nat)
    requires forall x :: f <= x < f + cnt ==> BlockOf(m, i, x) != 0
    ensures SpanNeeds(m, i, f, cnt) == []
  {
    if cnt > 0 {
      SpanNone(m, i, f, cnt - 1);
      assert BlockOf(m, i, f + cnt - 1) != 0;
    }
  }

  /** There is room for one block more exactly when bmap finds it. */
  lemma RoomNext(sb: Super, m: Image, own: Owner, n: Image, i: int, f: nat, cnt: nat)
    requires Consistent(sb, m, own) && Shape(sb, n) && Filled(sb, m, n, i, SpanNeeds(m, i, f, cnt))
    ensures Room(sb, m, i, f, cnt + 1) <==> |Needs(n, i, f + cnt)| <= |Frees(sb, n.blk)|
  {
    hide Addr, Owns, SpanNeeds, Needs, Frees;
    SpanNext(sb, m, own, n, i, f, cnt);
  }

  lemma NothingLogged(sb: Super, m: Image, i: int, f: int)
    requires Shape(sb, m)
    ensures FillLog(sb, m, i, []) == {} && WriteLog(sb, m, i, f, 0) == {}
  {
    hide Addr, Frees;
    assert Frees(sb, m.blk)[..0] == [];
  }

  /** One slot filled with the first free block. */
  lemma FilledOne(sb: Super, m: Image, n: Image, i: int, k: int, b: int)
    requires Shape(sb, m) && Shape(sb, n) && Frees(sb, m.blk) == [b] + Frees(sb, n.blk)
    requires forall j, l {:trigger Addr(n, j, l)} :: Addr(n, j, l) == if j == i && l == k then b else Addr(m, j, l)
    ensures Filled(sb, m, n, i, [k])
    ensures FillLog(sb, m, i, [k]) == {BBlock(sb, b), b} + if k > IND then {Addr(m, i, IND)} else {}
  {
    hide Addr, Frees;
    var fr := Frees(sb, m.blk);
    assert fr[..1] == [b] && fr[1..] == Frees(sb, n.blk) && Maps(sb, [b]) == [BBlock(sb, b)];
    AtFilled(sb, m, n, i, [k], IND);
    if k > IND {
      assert k in [k];
    }
  }

  /** balloc's block put into an empty direct slot, or into the indirect-block slot. */
  lemma FillDirectFills(sb: Super, m: Image, own: Owner, i: int, k: int, b: int)
    requires Consistent(sb, m, own) && 0 <= i < |m.ino| && 0 <= k <= IND
    requires sb.datastart <= b < sb.size && !Used(sb, m.blk, b) && Addr(m, i, k) == 0
    requires Frees(sb, m.blk) == [b] + Frees(sb, Allocated(sb, m.blk, b))
    ensures var n := FillDirect(sb, m, i, k, b);
            && Consistent(sb, n, own[b := (i, k)]) && Kept(m, n, -1) && Filled(sb, m, n, i, [k])
            && Addr(n, i, k) == b && n.blk[b] == Zero()
            && FillLog(sb, m, i, [k]) == {BBlock(sb, b), b}
  {
    hide Used, Addr, MarkBit, Allocated, Kept, Frees, Filled, FillLog, Owns;
    var n := FillDirect(sb, m, i, k, b);
    FillDirectOwns(sb, m, own, i, k, b);
    AllocatedEffect(sb, m.blk, b);
    forall j, l
      ensures Addr(n, j, l) == if j == i && l == k then b else Addr(m, j, l)
    {
      FillDirectAddr(sb, m, own, i, k, b, j, l);
    }
    FilledOne(sb, m, n, i, k, b);
  }

  /** The same for an entry of the indirect block. */
  lemma FillEntryFills(sb: Super, m: Image, own: Owner, i: int, e: nat, b: nat)
    requires Consistent(sb, m, own) && 0 <= i < |m.ino| && e < NINDIRECT && Addr(m, i, IND) != 0
    requires sb.datastart <= b < sb.size && !Used(sb, m.blk, b) && Addr(m, i, IND + 1 + e) == 0
    requires Frees(sb, m.blk) == [b] + Frees(sb, Allocated(sb, m.blk, b))
    ensures sb.datastart <= Addr(m, i, IND) < sb.size
    ensures var n, k := FillEntry(sb, m, i, e, b), IND + 1 + e;
            && Consistent(sb, n, own[b := (i, k)]) && Kept(m, n, -1) && Filled(sb, m, n, i, [k])
            && Addr(n, i, k) == b && n.blk[b] == Zero()
            && FillLog(sb, m, i, [k]) == {BBlock(sb, b), b} + {Addr(m, i, IND)}
  {
    hide Used, Addr, MarkBit, Allocated, Kept, Frees, Filled, FillLog, Owns, PutWord;
    SlotRange(sb, m, own, i, IND);
    var n, p := FillEntry(sb, m, i, e, b), Addr(m, i, IND);
    FillEntryOwns(sb, m, own, i, e, b);
    AllocatedEffect(sb, m.blk, b);
    FreesFrame(sb, Allocated(sb, m.blk, b), n.blk, p);
    forall j, l
      ensures Addr(n, j, l) == if j == i && l == IND + 1 + e then b else Addr(m, j, l)
    {
      FillEntryAddr(sb, m, own, i, e, b, j, l);
    }
    UsedSlot(sb, m, own, i, IND);
    FilledOne(sb, m, n, i, IND + 1 + e, b);
  }

  lemma UsedSlot(sb: Super, m: Image, own: Owner, i: int, k: int)
    requires Consistent(sb, m, own) && Addr(m, i, k) != 0
    ensures 0 <= Addr(m, i, k) < sb.size && Used(sb, m.blk, Addr(m, i, k))
  {
    hide Used;
  }

  lemma FilledFresh(sb: Super, m: Image, n: Image, i: int, s: seq<int>, k: int)
    requires Shape(sb, m) && Shape(sb, n) && Filled(sb, m, n, i, s)
    ensures k in s ==> 0 <= Addr(n, i, k) < sb.size && !Used(sb, m.blk, Addr(n, i, k))
  {
    hide Addr, Used;
    if k in s {
      var j :| 0 <= j < |s| && s[j] == k;
      assert Frees(sb, m.blk)[j] in Frees(sb, m.blk);
    }
  }

  lemma FilledRest(sb: Super, m: Image, n: Image, i: int, s: seq<int>)
    requires Shape(sb, m) && Shape(sb, n) && Filled(sb, m, n, i, s)
    ensures |Frees(sb, n.blk)| == |Frees(sb, m.blk)| - |s|
  {
  }

  /** bmap changes no data slot but its own. */
  lemma FilledMaps(sb: Super, n: Image, o: Image, i: int, bn: nat)
    requires Shape(sb, n) && Shape(sb, o) && Filled(sb, n, o, i, Needs(n, i, bn)) && Kept(n, o, -1)
    requires 0 < BlockOf(o, i, bn) < |o.blk| && (BlockOf(n, i, bn) == 0 ==> o.blk[BlockOf(o, i, bn)] == Zero())
    ensures Mapped(n, o, i, bn)
  {
    hide Addr, Frees, Kept;
  }

  lemma NeedsOf(m: Image, i: int, e: nat, s: seq<int>, t: seq<int>)
    requires e < NINDIRECT
    requires s == if Addr(m, i, IND) == 0 then [IND] else []
    requires t == if Addr(m, i, IND + 1 + e) == 0 then [IND + 1 + e] else []
    ensures Needs(m, i, NDIRECT + e) == s + t && (Addr(m, i, IND) == 0 ==> t != [])
  {
  }

  /** What bmap does beyond the direct blocks: first the indirect block, then the entry. */
  lemma NeedsTrans(sb: Super, m: Image, n: Image, o: Image, i: int, e: nat, s: seq<int>, t: seq<int>)
    requires Shape(sb, m) && Shape(sb, n) && Shape(sb, o) && e < NINDIRECT
    requires s == if Addr(m, i, IND) == 0 then [IND] else []
    requires t == if Addr(m, i, IND + 1 + e) == 0 then [IND + 1 + e] else []
    requires Filled(sb, m, n, i, s) && Filled(sb, n, o, i, t)
    ensures Needs(m, i, NDIRECT + e) == s + t
    ensures Filled(sb, m, o, i, s + t)
    ensures FillLog(sb, m, i, s + t) == FillLog(sb, m, i, s) + FillLog(sb, n, i, t)
  {
    hide Addr, Frees, FillLog, Filled;
    FilledTrans(sb, m, n, o, i, s, t);
    FillLogTrans(sb, m, n, o, i, s, t);
  }

  // ----- how many blocks a write logs -----

  lemma {:induction false} AtCases(sb: Super, m: Image, i: int, s: seq<int>, k: int)
    requires Shape(sb, m) && |s| <= |Frees(sb, m.blk)|
    ensures k !in s ==> At(sb, m, i, s, k) == Addr(m, i, k)
    ensures k in s ==> exists j :: 0 <= j < |s| && s[j] == k && At(sb, m, i, s, k) == Frees(sb, m.blk)[j]
  {
    hide Addr, Frees;
    if s != [] {
      var n := |s| - 1;
      AtCases(sb, m, i, s[..n], k);
    }
  }

  /** Filled slots hold distinct data blocks. */
  lemma AtInjective(sb: Super, m: Image, own: Owner, i: int, s: seq<int>, k: int, l: int)
    requires Consistent(sb, m, own) && |s| <= |Frees(sb, m.blk)| && (Addr(m, i, k) != 0 || k in s)
    ensures sb.datastart <= At(sb, m, i, s, k) < sb.size
    ensures (Addr(m, i, l) != 0 || l in s) && At(sb, m, i, s, k) == At(sb, m, i, s, l) ==> k == l
  {
    hide Addr, Frees, At, Used;
    AtCases(sb, m, i, s, k);
    AtCases(sb, m, i, s, l);
    assert forall j :: 0 <= j < |s| ==> Frees(sb, m.blk)[j] in Frees(sb, m.blk);
    forall b | b in Frees(sb, m.blk)
      ensures sb.datastart <= b < sb.size && b !in own
    {
      FreesAreNew(sb, m, own, b);
    }
  }

  predicate Indirect(s: seq<int>) {
    exists k :: k in s && k >= IND
  }

  /** The data blocks of a write and, if it is logged, the indirect block. */
  function DataLog(sb: Super, m: Image, i: int, f: int, cnt: nat): seq<int>
    requires Shape(sb, m) && Room(sb, m, i, f, cnt)
  {
    var s := SpanNeeds(m, i, f, cnt);
    Data(sb, m, i, s, f, cnt) + if Indirect(s) then [At(sb, m, i, s, IND)] else []
  }

  /** The bitmap blocks that get a new bit. */
  function MapLog(sb: Super, m: Image, i: int, f: int, cnt: nat): set<int>
    requires Shape(sb, m) && Room(sb, m, i, f, cnt)
  {
    Elems(Maps(sb, Frees(sb, m.blk)[..|SpanNeeds(m, i, f, cnt)|]))
  }

  /** The slot of the x-th of them. */
  function LogSlot(f: int, cnt: nat, x: int): int {
    if x < cnt then DataSlot(f + x) else IND
  }

  lemma LogSlotFull(sb: Super, m: Image, i: int, f: nat, cnt: nat, x: nat)
    requires Shape(sb, m) && Room(sb, m, i, f, cnt) && x < |DataLog(sb, m, i, f, cnt)|
    ensures var s, k := SpanNeeds(m, i, f, cnt), LogSlot(f, cnt, x);
            DataLog(sb, m, i, f, cnt)[x] == At(sb, m, i, s, k) && (Addr(m, i, k) != 0 || k in s)
  {
    hide Addr, Frees, At;
    var s := SpanNeeds(m, i, f, cnt);
    if x < cnt {
      if BlockOf(m, i, f + x) == 0 {
        SpanHas(m, i, f, cnt, f + x);
      }
    } else {
      var k :| k in s && k >= IND;
      SpanSlots(m, i, f, cnt, k);
    }
  }

  lemma DataLogDistinct(sb: Super, m: Image, own: Owner, i: int, f: nat, cnt: nat)
    requires Consistent(sb, m, own) && Room(sb, m, i, f, cnt)
    ensures var d := DataLog(sb, m, i, f, cnt);
            && (forall x, y :: 0 <= x < y < |d| ==> d[x] != d[y])
            && (forall x :: 0 <= x < |d| ==> sb.datastart <= d[x] < sb.size)
  {
    hide Addr, Frees, At, SpanNeeds, Owns, Indirect;
    var s, d := SpanNeeds(m, i, f, cnt), DataLog(sb, m, i, f, cnt);
    forall x, y | 0 <= x <= y < |d|
      ensures sb.datastart <= d[x] < sb.size && (x < y ==> d[x] != d[y])
    {
      LogSlotFull(sb, m, i, f, cnt, x);
      LogSlotFull(sb, m, i, f, cnt, y);
      AtInjective(sb, m, own, i, s, LogSlot(f, cnt, x), LogSlot(f, cnt, y));
    }
  }

  /** Every newly allocated block is one of the data blocks or the indirect block. */
  lemma NewInDataLog(sb: Super, m: Image, i: int, f: nat, cnt: nat, j: nat)
    requires Shape(sb, m) && Room(sb, m, i, f, cnt) && j < |SpanNeeds(m, i, f, cnt)|
    ensures Frees(sb, m.blk)[j] in DataLog(sb, m, i, f, cnt)
  {
    hide Addr, Frees, At, SpanNeeds;
    var s, d := SpanNeeds(m, i, f, cnt), DataLog(sb, m, i, f, cnt);
    SpanDistinct(m, i, f, cnt);
    SpanSlots(m, i, f, cnt, s[j]);
    AtCases(sb, m, i, s, s[j]);
    if s[j] == IND {
      assert d[cnt] == At(sb, m, i, s, IND);
    } else {
      var x := BlockNo(s[j]) - f;
      assert d[x] == At(sb, m, i, s, s[j]);
    }
  }

  lemma WriteLogParts(sb: Super, m: Image, i: int, f: nat, cnt: nat)
    requires Shape(sb, m) && Room(sb, m, i, f, cnt)
    ensures WriteLog(sb, m, i, f, cnt) == Elems(DataLog(sb, m, i, f, cnt)) + MapLog(sb, m, i, f, cnt)
  {
    hide Addr, Frees, At, SpanNeeds, Maps, Data;
    var s, d := SpanNeeds(m, i, f, cnt), DataLog(sb, m, i, f, cnt);
    var b := Frees(sb, m.blk)[..|s|];
    forall x | x in b
      ensures x in d
    {
      var j :| 0 <= j < |s| && b[j] == x;
      NewInDataLog(sb, m, i, f, cnt, j);
    }
    var data := Data(sb, m, i, s, f, cnt);
    if Indirect(s) {
      if !exists k :: k in s && k > IND {
        IndInNew(sb, m, i, s);
      }
      ElemsConcat(data, [At(sb, m, i, s, IND)]);
    }
  }

  lemma IndInNew(sb: Super, m: Image, i: int, s: seq<int>)
    requires Shape(sb, m) && |s| <= |Frees(sb, m.blk)| && IND in s
    ensures At(sb, m, i, s, IND) in Frees(sb, m.blk)[..|s|]
  {
    hide Addr, Frees, At;
    AtCases(sb, m, i, s, IND);
    var j :| 0 <= j < |s| && s[j] == IND && At(sb, m, i, s, IND) == Frees(sb, m.blk)[j];
    assert Frees(sb, m.blk)[..|s|][j] == Frees(sb, m.blk)[j];
  }

  lemma {:induction false} ElemsSize(q: seq<int>)
    ensures |Elems(q)| <= |q|
    ensures |Elems(q)| == |q| <==> LogDisk.Distinct(q)
  {
    if q != [] {
      var n := |q| - 1;
      ElemsSize(q[..n]);
      assert q == q[..n] + [q[n]];
      assert Elems(q) == Elems(q[..n]) + {q[n]};
      if q[n] in q[..n] {
        var j :| 0 <= j < n && q[j] == q[n];
        assert Elems(q) == Elems(q[..n]);
      }
    }
  }

  /**
  The exact number of blocks the loop of writei logs: one for each block of the span, one for the
  indirect block if it is new or gets an entry, and the bitmap blocks over the new blocks.
  */
  lemma WriteLogSize(sb: Super, m: Image, own: Owner, i: int, f: nat, cnt: nat)
    requires Consistent(sb, m, own) && Room(sb, m, i, f, cnt)
    ensures |WriteLog(sb, m, i, f, cnt)| ==
      cnt + (if Indirect(SpanNeeds(m, i, f, cnt)) then 1 else 0) + |MapLog(sb, m, i, f, cnt)|
    ensures forall j :: 0 <= j < sb.ninodes ==> IBlock(sb, j) !in WriteLog(sb, m, i, f, cnt)
  {
    hide Addr, Frees, At, SpanNeeds, Owns, WriteLog, Indirect;
    var d, b := DataLog(sb, m, i, f, cnt), MapLog(sb, m, i, f, cnt);
    WriteLogParts(sb, m, i, f, cnt);
    DataLogDistinct(sb, m, own, i, f, cnt);
    ElemsSize(d);
    MapLogRange(sb, m, own, i, f, cnt);
    assert Elems(d) !! b;
  }

  lemma MapLogRange(sb: Super, m: Image, own: Owner, i: int, f: nat, cnt: nat)
    requires Consistent(sb, m, own) && Room(sb, m, i, f, cnt)
    ensures forall b :: b in MapLog(sb, m, i, f, cnt) ==> sb.bmapstart <= b < sb.datastart
  {
    hide Addr, At, SpanNeeds, Owns, Used;
    var fr := Frees(sb, m.blk);
    assert forall j :: 0 <= j < |fr| ==> fr[j] in fr;
  }
}
