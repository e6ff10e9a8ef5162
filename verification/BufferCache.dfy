/**
The buffer cache (bio.c) over the synchronous in-memory disk (memide.c).

The doubly linked list is modelled by its prev and next pointers.  What they stand for is an
order by time: every buffer carries a ghost stamp of its last release, and following next from
the head visits the buffers from the most to the least recently released.
*/
module BufferCache {
  import opened Params

  type Block = seq<int>

  /** The list head, one past the buffers. */
  const HEAD := NBUF

  type Links = seq<nat>
  type Stamps = seq<int>

  // ----- the ring -----

  /** q follows p: no other buffer's stamp lies between theirs. */
  ghost predicate Follows(next: Links, prev: Links, at: Stamps, p: nat)
    requires |next| == |prev| == HEAD + 1 && |at| == HEAD && p <= HEAD
  {
    && next[p] <= HEAD && prev[next[p]] == p
    && if next[p] == HEAD then p < HEAD && forall x :: 0 <= x < HEAD ==> at[p] <= at[x]
       else
         && (p < HEAD ==> at[next[p]] < at[p])
         && forall x :: 0 <= x < HEAD && at[next[p]] < at[x] ==> p < HEAD && at[p] <= at[x]
  }

  ghost predicate Ring(next: Links, prev: Links, at: Stamps) {
    && |next| == |prev| == HEAD + 1 && |at| == HEAD
    && (forall x, y :: 0 <= x < y < HEAD ==> at[x] != at[y])
    && (forall p {:trigger Follows(next, prev, at, p)} :: 0 <= p <= HEAD ==> Follows(next, prev, at, p))
    // the backward links cover every node too
    && (forall q {:trigger prev[q]} :: 0 <= q <= HEAD ==> prev[q] <= HEAD && next[prev[q]] == q)
  }

  /** brelse's pointer surgery: b leaves its place and becomes the first. */
  function Unlinked(next: Links, prev: Links, b: nat): (Links, Links)
    requires |next| == |prev| == HEAD + 1 && b < HEAD && next[b] <= HEAD && prev[b] <= HEAD
  {
    (next[prev[b] := next[b]], prev[next[b] := prev[b]])
  }

  function Pushed(next: Links, prev: Links, b: nat): (Links, Links)
    requires |next| == |prev| == HEAD + 1 && b < HEAD && next[HEAD] <= HEAD
  {
    (next[b := next[HEAD]][HEAD := b], prev[b := HEAD][next[HEAD] := b])
  }

  function Moved(next: Links, prev: Links, b: nat): (Links, Links)
    requires |next| == |prev| == HEAD + 1 && b < HEAD && next[b] <= HEAD && prev[b] <= HEAD && next[HEAD] <= HEAD
  {
    var u := Unlinked(next, prev, b);
    Pushed(u.0, u.1, b)
  }

  /** Where everything points after the move. */
  lemma MovedLinks(next: Links, prev: Links, at: Stamps, b: nat, p: nat)
    requires Ring(next, prev, at) && b < HEAD && p <= HEAD
    ensures next[b] <= HEAD && prev[b] <= HEAD && next[HEAD] < HEAD
    ensures var m := Moved(next, prev, b);
            && |m.0| == |m.1| == HEAD + 1
            && (prev[b] == HEAD ==> m == (next, prev))
            && (prev[b] != HEAD ==>
                  && m.0[p] == (if p == HEAD then b else if p == b then next[HEAD]
                                else if p == prev[b] then next[b] else next[p])
                  && m.1[p] == (if p == b then HEAD else if p == next[HEAD] then b
                                else if p == next[b] then prev[b] else prev[p]))
  {
    assert Follows(next, prev, at, HEAD) && Follows(next, prev, at, b);
    var u := Unlinked(next, prev, b);
    var q := prev[b];
    assert next[q] == b;
    if q == HEAD {
      var m := Moved(next, prev, b);
      assert m.0 == next && m.1 == prev;
    }
  }

  /** Releasing b last moves it to the front and leaves the others in their order. */
  lemma MovedRing(next: Links, prev: Links, at: Stamps, b: nat, t: int)
    requires Ring(next, prev, at) && b < HEAD && forall x :: 0 <= x < HEAD ==> at[x] < t
    ensures next[b] <= HEAD && prev[b] <= HEAD && next[HEAD] < HEAD
    ensures Ring(Moved(next, prev, b).0, Moved(next, prev, b).1, at[b := t])
  {
    hide Follows, Moved;
    MovedLinks(next, prev, at, b, 0);
    var m, at' := Moved(next, prev, b), at[b := t];
    forall p | 0 <= p <= HEAD
      ensures Follows(m.0, m.1, at', p)
    {
      MovedFollows(next, prev, at, b, t, p);
    }
    forall q | 0 <= q <= HEAD
      ensures m.1[q] <= HEAD && m.0[m.1[q]] == q
    {
      MovedFollows(next, prev, at, b, t, q);
    }
  }

  /** The links are still inverse to each other. */
  lemma MovedInverse(next: Links, prev: Links, at: Stamps, b: nat, p: nat)
    requires Ring(next, prev, at) && b < HEAD && p <= HEAD
    ensures next[b] <= HEAD && prev[b] <= HEAD && next[HEAD] < HEAD
    ensures var m := Moved(next, prev, b);
            && |m.0| == |m.1| == HEAD + 1
            && m.0[p] <= HEAD && m.1[m.0[p]] == p && m.1[p] <= HEAD && m.0[m.1[p]] == p
  {
    hide Moved;
    MovedLinks(next, prev, at, b, p);
    var m := Moved(next, prev, b);
    assert Follows(next, prev, at, HEAD) && Follows(next, prev, at, b) && Follows(next, prev, at, prev[b]) && Follows(next, prev, at, p);
    MovedLinks(next, prev, at, b, m.0[p]);
    MovedLinks(next, prev, at, b, m.1[p]);
  }

  lemma MovedFollows(next: Links, prev: Links, at: Stamps, b: nat, t: int, p: nat)
    requires Ring(next, prev, at) && b < HEAD && p <= HEAD && forall x :: 0 <= x < HEAD ==> at[x] < t
    ensures next[b] <= HEAD && prev[b] <= HEAD && next[HEAD] < HEAD
    ensures var m := Moved(next, prev, b);
            && |m.0| == |m.1| == HEAD + 1
            && Follows(m.0, m.1, at[b := t], p) && m.1[p] <= HEAD && m.0[m.1[p]] == p
  {
    hide Moved;
    MovedInverse(next, prev, at, b, p);
    MovedLinks(next, prev, at, b, p);
    var q := prev[b];
    assert next[q] == b;
    if p == HEAD || p == b {
      assert Follows(next, prev, at, HEAD);
    } else if p == q {
      assert Follows(next, prev, at, q) && Follows(next, prev, at, b);
    } else {
      assert Follows(next, prev, at, p);
    }
  }

  // ----- walking the ring -----

  /** Buffers released before p, and after p; the head comes before all. */
  ghost function Older(at: Stamps, p: nat): set<nat>
    requires |at| == HEAD && p <= HEAD
  {
    set x: nat | x < HEAD && (p == HEAD || at[x] < at[p])
  }

  ghost function Newer(at: Stamps, p: nat): set<nat>
    requires |at| == HEAD && p <= HEAD
  {
    set x: nat | x < HEAD && (p == HEAD || at[x] > at[p])
  }

  /** Forward: from p the next buffer is the newest of the older ones. */
  lemma StepForward(next: Links, prev: Links, at: Stamps, p: nat)
    requires Ring(next, prev, at) && p <= HEAD
    ensures next[p] <= HEAD
    ensures next[p] < HEAD ==>
      && Older(at, next[p]) == Older(at, p) - {next[p]} && next[p] in Older(at, p)
      && next[p] !in Older(at, next[p])
    ensures next[p] == HEAD ==> p < HEAD && Older(at, p) == {}
  {
    assert Follows(next, prev, at, p);
  }

  /** Backward: from p the previous buffer is the oldest of the newer ones. */
  lemma StepBack(next: Links, prev: Links, at: Stamps, p: nat)
    requires Ring(next, prev, at) && p <= HEAD
    ensures prev[p] <= HEAD
    ensures prev[p] < HEAD ==>
      && Newer(at, prev[p]) == Newer(at, p) - {prev[p]} && prev[p] in Newer(at, p)
      && prev[p] !in Newer(at, prev[p])
    ensures prev[p] == HEAD ==> p < HEAD && Newer(at, p) == {}
  {
    var q := prev[p];
    assert next[q] == p;
    assert Follows(next, prev, at, q);
  }

  /** The buffers met going forward from p until the head comes round. */
  ghost function Walk(next: Links, prev: Links, at: Stamps, p: nat): (w: seq<nat>)
    requires Ring(next, prev, at) && p <= HEAD
    ensures forall i :: 0 <= i < |w| ==> w[i] < |at|
    decreases Older(at, p)
  {
    StepForward(next, prev, at, p);
    if next[p] == HEAD then [] else [next[p]] + Walk(next, prev, at, next[p])
  }

  /** w lists set s by falling stamps. */
  ghost predicate Falling(at: Stamps, w: seq<nat>, s: set<nat>) {
    && (forall i :: 0 <= i < |w| ==> w[i] < |at|)
    && (forall x :: x in w <==> x in s)
    && (forall i, j :: 0 <= i < j < |w| ==> at[w[i]] > at[w[j]])
  }

  lemma FallingCons(at: Stamps, q: nat, w: seq<nat>, s: set<nat>)
    requires Falling(at, w, s) && q < |at| && forall x :: x in s ==> x < |at| && at[x] < at[q]
    ensures Falling(at, [q] + w, s + {q})
  {
    assert forall i :: 0 <= i < |w| ==> w[i] in s;
  }

  /** From the head the ring runs through every buffer once, the most recently released first. */
  lemma {:induction false} RingOrder(next: Links, prev: Links, at: Stamps, p: nat)
    requires Ring(next, prev, at) && p <= HEAD
    ensures Falling(at, Walk(next, prev, at, p), Older(at, p))
    decreases Older(at, p)
  {
    hide Ring, Falling;
    StepForward(next, prev, at, p);
    RingBounds(next, prev, at);
    var q := next[p];
    if q == HEAD {
      FallingNone(at);
    } else {
      RingOrder(next, prev, at, q);
      FallingCons(at, q, Walk(next, prev, at, q), Older(at, q));
      assert Older(at, p) == Older(at, q) + {q};
    }
  }

  lemma FallingNone(at: Stamps)
    ensures Falling(at, [], {})
  {
  }

  // ----- the buffers -----

  datatype Buf = Buf(dev: nat, blockno: nat, valid: bool, dirty: bool, refcnt: nat, locked: bool, data: Block)

  /** A reference handed out by bget: the buffer and the block it was asked for. */
  type Ref = (int, int, int)

  /** No two buffers hold the same block of a real device. */
  ghost predicate Unique(bufs: seq<Buf>) {
    forall i, j :: 0 <= i < j < |bufs| && bufs[i].dev != 0 && bufs[i].dev == bufs[j].dev ==> bufs[i].blockno != bufs[j].blockno
  }

  /** refcnt counts the outstanding references, and they all still name their block. */
  ghost predicate Counted(bufs: seq<Buf>, refs: multiset<Ref>) {
    && (forall i :: 0 <= i < |bufs| ==> refs[(i, bufs[i].dev, bufs[i].blockno)] == bufs[i].refcnt)
    && (forall r :: r in refs ==> 0 <= r.0 < |bufs| && r.1 == bufs[r.0].dev && r.2 == bufs[r.0].blockno)
    && (forall i :: 0 <= i < |bufs| && bufs[i].locked ==> bufs[i].refcnt > 0)
  }

  ghost predicate Caches(b: Buf, n: int) {
    b.dev == 1 && b.blockno == n && b.valid
  }

  /**
  current is the last content written to each block of the disk.  A valid buffer holds it; the disk
  holds it too unless the buffer is dirty or its holder has changed it and not yet said so.
  */
  ghost predicate Coherent(bufs: seq<Buf>, disk: seq<Block>, current: seq<Block>, touched: set<nat>) {
    && |current| == |disk|
    && (forall i :: 0 <= i < |bufs| && bufs[i].valid ==>
          bufs[i].dev == 1 && bufs[i].blockno < |disk| && bufs[i].data == current[bufs[i].blockno])
    && (forall i :: 0 <= i < |bufs| && bufs[i].dirty ==> bufs[i].valid)
    && (forall i :: i in touched ==> i < |bufs| && bufs[i].locked && bufs[i].valid)
    && (forall n :: 0 <= n < |disk| && current[n] != disk[n] ==>
          exists i :: 0 <= i < |bufs| && Caches(bufs[i], n) && (bufs[i].dirty || i in touched))
  }

  predicate Recyclable(b: Buf) {
    b.refcnt == 0 && !b.dirty
  }

  /** bget has no buffer for this block: it is not cached, and every buffer is referenced or dirty. */
  ghost predicate NoBuffer(bufs: seq<Buf>, dev: nat, n: nat) {
    && (forall j :: 0 <= j < |bufs| ==> !(bufs[j].dev == dev && bufs[j].blockno == n))
    && (forall j :: 0 <= j < |bufs| ==> !Recyclable(bufs[j]))
  }

  // ----- a cache full of pinned blocks -----

  ghost predicate Pinned(b: Buf, n: int) {
    b.dirty && b.dev == 1 && b.blockno == n
  }

  /** The dirty buffers hold exactly these blocks of disk 1. */
  ghost predicate Pins(bufs: seq<Buf>, pinned: set<nat>) {
    && (forall n :: n in pinned ==> exists i :: 0 <= i < |bufs| && Pinned(bufs[i], n))
    && (forall i :: 0 <= i < |bufs| && bufs[i].dirty ==> bufs[i].dev == 1 && bufs[i].blockno in pinned)
  }

  function DirtyCount(bufs: seq<Buf>): nat {
    if bufs == [] then 0 else DirtyCount(bufs[..|bufs| - 1]) + if bufs[|bufs| - 1].dirty then 1 else 0
  }

  lemma {:induction false} DirtyAll(bufs: seq<Buf>)
    ensures DirtyCount(bufs) <= |bufs|
    ensures DirtyCount(bufs) == |bufs| <==> forall i :: 0 <= i < |bufs| ==> bufs[i].dirty
  {
    if bufs != [] {
      DirtyAll(bufs[..|bufs| - 1]);
    }
  }

  /** Each pinned block has one dirty buffer. */
  lemma {:induction false} PinnedSize(bufs: seq<Buf>, pinned: set<nat>)
    requires Unique(bufs) && Pins(bufs, pinned)
    ensures |pinned| == DirtyCount(bufs)
  {
    if bufs == [] {
      assert pinned == {};
    } else {
      var k := |bufs| - 1;
      var b, rest := bufs[k], bufs[..k];
      var less := if b.dirty then pinned - {b.blockno} else pinned;
      forall n | n in less
        ensures exists i :: 0 <= i < |rest| && Pinned(rest[i], n)
      {
        var i :| 0 <= i < |bufs| && Pinned(bufs[i], n);
        assert Pinned(rest[i], n);
      }
      PinnedSize(rest, less);
    }
  }

  /**
  As many pinned blocks as buffers leave none for any other block, so bread of a log slot panics; with
  fewer, and no buffer in use, there is one.
  */
  lemma PinnedCacheFull(bufs: seq<Buf>, pinned: set<nat>, slot: nat)
    requires |bufs| == NBUF && Unique(bufs) && Pins(bufs, pinned) && slot !in pinned
    ensures |pinned| <= NBUF
    ensures |pinned| == NBUF ==> NoBuffer(bufs, 1, slot)
    ensures |pinned| < NBUF && (forall i :: 0 <= i < |bufs| ==> bufs[i].refcnt == 0) ==> !NoBuffer(bufs, 1, slot)
  {
    hide DirtyCount, Unique, Pins, NoBuffer;
    PinnedSize(bufs, pinned);
    DirtyAll(bufs);
    if |pinned| == NBUF {
      AllDirty(bufs, pinned, slot);
    } else {
      var i :| 0 <= i < |bufs| && !bufs[i].dirty;
      SomeClean(bufs, slot, i);
    }
  }

  lemma AllDirty(bufs: seq<Buf>, pinned: set<nat>, slot: nat)
    requires Pins(bufs, pinned) && slot !in pinned && forall i :: 0 <= i < |bufs| ==> bufs[i].dirty
    ensures NoBuffer(bufs, 1, slot)
  {
  }

  lemma SomeClean(bufs: seq<Buf>, slot: nat, i: nat)
    requires i < |bufs| && !bufs[i].dirty
    ensures (forall j :: 0 <= j < |bufs| ==> bufs[j].refcnt == 0) ==> !NoBuffer(bufs, 1, slot)
  {
    assert bufs[i].refcnt == 0 ==> Recyclable(bufs[i]);
  }

  /** Recycling an unreferenced clean buffer loses nothing. */
  lemma RecycleCoherent(bufs: seq<Buf>, disk: seq<Block>, current: seq<Block>, touched: set<nat>, refs: multiset<Ref>, i: nat, dev: nat, n: nat)
    requires Coherent(bufs, disk, current, touched) && Counted(bufs, refs) && Unique(bufs)
    requires i < |bufs| && Recyclable(bufs[i])
    requires forall j :: 0 <= j < |bufs| ==> !(bufs[j].dev == dev && bufs[j].blockno == n)
    ensures var b := bufs[i := bufs[i].(dev := dev, blockno := n, valid := false, dirty := false, refcnt := 1)];
            && Coherent(b, disk, current, touched)
            && Unique(b)
            && Counted(b, refs + multiset{(i, dev, n)})
  {
    var b := bufs[i := bufs[i].(dev := dev, blockno := n, valid := false, dirty := false, refcnt := 1)];
    assert (i, dev, n) !in refs;
    forall x | 0 <= x < |disk| && current[x] != disk[x]
      ensures exists j :: 0 <= j < |b| && Caches(b[j], x) && (b[j].dirty || j in touched)
    {
      var j :| 0 <= j < |bufs| && Caches(bufs[j], x) && (bufs[j].dirty || j in touched);
      assert j != i;
      assert Caches(b[j], x);
    }
    forall r | r in refs + multiset{(i, dev, n)}
      ensures 0 <= r.0 < |b| && r.1 == b[r.0].dev && r.2 == b[r.0].blockno
    {
      if r in refs {
        assert r.0 == i ==> refs[r] == 0;
      }
    }
  }

  /** Changing flags or data of buffer i, with matching changes to disk and current. */
  lemma ChangeCoherent(bufs: seq<Buf>, disk: seq<Block>, current: seq<Block>, touched: set<nat>,
                       i: nat, nb: Buf, disk': seq<Block>, current': seq<Block>, touched': set<nat>)
    requires Coherent(bufs, disk, current, touched) && Unique(bufs) && i < |bufs|
    requires nb.valid && nb.dev == bufs[i].dev == 1 && nb.blockno == bufs[i].blockno < |disk|
    requires |disk'| == |current'| == |disk|
    requires forall x :: 0 <= x < |disk| && x != nb.blockno ==> disk'[x] == disk[x] && current'[x] == current[x]
    requires nb.data == current'[nb.blockno]
    requires current'[nb.blockno] != disk'[nb.blockno] ==> nb.dirty || i in touched'
    requires forall j :: j != i ==> (j in touched' <==> j in touched)
    requires i in touched' ==> nb.locked
    ensures Coherent(bufs[i := nb], disk', current', touched') && Unique(bufs[i := nb])
  {
    var b := bufs[i := nb];
    forall x | 0 <= x < |disk'| && current'[x] != disk'[x]
      ensures exists j :: 0 <= j < |b| && Caches(b[j], x) && (b[j].dirty || j in touched')
    {
      if x == nb.blockno {
        assert Caches(b[i], x);
      } else {
        var j :| 0 <= j < |bufs| && Caches(bufs[j], x) && (bufs[j].dirty || j in touched);
        assert Caches(b[j], x);
      }
    }
    forall j | 0 <= j < |b| && b[j].valid
      ensures b[j].dev == 1 && b[j].blockno < |disk'| && b[j].data == current'[b[j].blockno]
    {
      if j != i {
        assert bufs[j].blockno != bufs[i].blockno;
      }
    }
  }

  // ----- the cache -----

  /** bufs has the same buffers as old ones, except number i. */
  ghost predicate OnlyBuf(bufs0: seq<Buf>, bufs: seq<Buf>, i: int) {
    |bufs| == |bufs0| && forall j :: 0 <= j < |bufs| && j != i ==> bufs[j] == bufs0[j]
  }

  class Cache {
    var bufs: seq<Buf>
    var next: Links
    var prev: Links
    var disk: seq<Block>
    ghost var at: Stamps
    ghost var clock: int
    ghost var refs: multiset<Ref>
    ghost var current: seq<Block>
    ghost var touched: set<nat>

    ghost predicate Valid()
      reads this
    {
      && |bufs| == HEAD
      && Ring(next, prev, at)
      && (forall x :: 0 <= x < HEAD ==> at[x] < clock)
      && Unique(bufs)
      && Counted(bufs, refs)
      && Coherent(bufs, disk, current, touched)
    }

    /** binit: every buffer starts as block 0 of device 0, linked in front of the ones before it. */
    constructor (disk: seq<Block>)
      ensures Valid() && this.disk == disk && current == disk && refs == multiset{} && touched == {}
    {
      var n, p := seq(HEAD + 1, _ => HEAD), seq(HEAD + 1, _ => HEAD);
      var b := 0;
      while b < HEAD
        invariant 0 <= b <= HEAD && |n| == |p| == HEAD + 1
        invariant n[HEAD] == (if b == 0 then HEAD else b - 1) && p[HEAD] == (if b == 0 then HEAD else 0)
        invariant forall i :: 0 <= i < b ==> n[i] == if i == 0 then HEAD else i - 1
        invariant forall i :: 0 <= i < b ==> p[i] == if i == b - 1 then HEAD else i + 1
      {
        n := n[b := n[HEAD]];
        p := p[b := HEAD];
        p := p[n[HEAD] := b];
        n := n[HEAD := b];
        b := b + 1;
      }
      var a := seq(HEAD, i => i);
      InitRing(n, p, a);
      this.bufs := seq(HEAD, _ => Buf(0, 0, false, false, 0, false, []));
      this.next, this.prev, this.at, this.clock := n, p, a, HEAD;
      this.disk, this.current, this.refs, this.touched := disk, disk, multiset{}, {};
    }

    /** The first loop of bget: the buffer that already holds the block. */
    method Lookup(dev: nat, blockno: nat) returns (b: nat)
      requires Valid()
      ensures b <= HEAD
      ensures b < HEAD ==> bufs[b].dev == dev && bufs[b].blockno == blockno
      ensures b == HEAD ==> forall j :: 0 <= j < HEAD ==> !(bufs[j].dev == dev && bufs[j].blockno == blockno)
    {
      hide Ring, Unique, Counted, Coherent;
      RingBounds(next, prev, at);
      StepForward(next, prev, at, HEAD);
      b := next[HEAD];
      while b != HEAD
        invariant b <= HEAD && |at| == HEAD
        invariant forall j: nat :: j < HEAD && (b == HEAD || (j != b && j !in Older(at, b))) ==>
          !(bufs[j].dev == dev && bufs[j].blockno == blockno)
        decreases if b == HEAD then {} else Older(at, b) + {b}
      {
        if bufs[b].dev == dev && bufs[b].blockno == blockno {
          return b;
        }
        StepForward(next, prev, at, b);
        b := next[b];
      }
    }

    /** The second loop of bget: the least recently released buffer that nobody needs. */
    method Victim() returns (b: nat)
      requires Valid()
      ensures b <= HEAD
      ensures b < HEAD ==> Recyclable(bufs[b]) && forall j :: 0 <= j < HEAD && at[j] < at[b] ==> !Recyclable(bufs[j])
      ensures b == HEAD ==> forall j :: 0 <= j < HEAD ==> !Recyclable(bufs[j])
    {
      hide Ring, Unique, Counted, Coherent, Recyclable;
      RingBounds(next, prev, at);
      StepBack(next, prev, at, HEAD);
      b := prev[HEAD];
      while b != HEAD
        invariant b <= HEAD && |at| == HEAD
        invariant forall j: nat :: j < HEAD && (b == HEAD || (j != b && j !in Newer(at, b))) ==> !Recyclable(bufs[j])
        decreases if b == HEAD then {} else Newer(at, b) + {b}
      {
        if bufs[b].refcnt == 0 && !bufs[b].dirty {
          RecyclableIs(bufs[b]);
          return b;
        }
        RecyclableIs(bufs[b]);
        StepBack(next, prev, at, b);
        b := prev[b];
      }
    }

    /**
    bget under the cache lock: a reference to the one buffer for this block.  It panics exactly when
    the block is not cached and every buffer is referenced or dirty.
    */
    method Bget(dev: nat, blockno: nat) returns (r: Option<nat>)
      requires Valid()
      modifies this`bufs, this`refs
      ensures Valid()
      ensures r.None? <==> NoBuffer(old(bufs), dev, blockno)
      ensures r.None? ==> bufs == old(bufs) && refs == old(refs)
      ensures r.Some? ==>
        && r.value < HEAD && OnlyBuf(old(bufs), bufs, r.value)
        && refs == old(refs) + multiset{(r.value, dev, blockno)}
        && var b := old(bufs)[r.value];
           if b.dev == dev && b.blockno == blockno then bufs[r.value] == b.(refcnt := b.refcnt + 1)
           else
             // an uncached block takes the least recently released free buffer
             && bufs[r.value] == b.(dev := dev, blockno := blockno, valid := false, dirty := false, refcnt := 1)
             && Recyclable(b) && forall j :: 0 <= j < HEAD && at[j] < at[r.value] ==> !Recyclable(old(bufs)[j])
    {
      hide Ring, Unique, Coherent, Counted;
      var b := Lookup(dev, blockno);
      if b != HEAD {
        AddRef(bufs, disk, current, touched, refs, b);
        bufs := bufs[b := bufs[b].(refcnt := bufs[b].refcnt + 1)];
        refs := refs + multiset{(b, dev, blockno)};
        return Some(b);
      }
      b := Victim();
      if b != HEAD {
        RecycleCoherent(bufs, disk, current, touched, refs, b, dev, blockno);
        bufs := bufs[b := bufs[b].(dev := dev, blockno := blockno, valid := false, dirty := false, refcnt := 1)];
        refs := refs + multiset{(b, dev, blockno)};
        return Some(b);
      }
      return None;
    }

    /** acquiresleep on a buffer whose lock is free, by the owner of a reference to it. */
    method Lock(i: nat, dev: nat, blockno: nat)
      requires Valid() && (i, dev, blockno) in refs && !bufs[i].locked
      modifies this`bufs
      ensures Valid() && OnlyBuf(old(bufs), bufs, i)
      ensures bufs[i] == old(bufs)[i].(locked := true) && bufs[i].dev == dev && bufs[i].blockno == blockno
    {
      hide Ring, Unique;
      LockFrame(bufs, disk, current, touched, refs, i, true);
      bufs := bufs[i := bufs[i].(locked := true)];
    }

    /** iderw: write a dirty buffer, read an invalid one; ok is false where it panics. */
    method Iderw(i: nat) returns (ok: bool)
      requires i < |bufs|
      modifies this`bufs, this`disk
      ensures var b := old(bufs)[i];
              && (ok <==> b.locked && !(b.valid && !b.dirty) && b.dev == 1 && b.blockno < |old(disk)|)
              && (!ok ==> bufs == old(bufs) && disk == old(disk))
              && (ok && b.dirty ==>
                    disk == old(disk)[b.blockno := b.data] && bufs == old(bufs)[i := b.(dirty := false, valid := true)])
              && (ok && !b.dirty ==>
                    disk == old(disk) && bufs == old(bufs)[i := b.(data := disk[b.blockno], valid := true)])
    {
      var b := bufs[i];
      if !b.locked || (b.valid && !b.dirty) || b.dev != 1 || b.blockno >= |disk| {
        return false;
      }
      if b.dirty {
        disk := disk[b.blockno := b.data];
        bufs := bufs[i := b.(dirty := false, valid := true)];
      } else {
        bufs := bufs[i := b.(data := disk[b.blockno], valid := true)];
      }
      return true;
    }

    /** The rest of bread once the buffer is locked: it shows the last content written to the block; panics as iderw does. */
    method Bread(i: nat, dev: nat, blockno: nat) returns (ok: bool)
      requires Valid() && (i, dev, blockno) in refs && bufs[i].locked
      modifies this`bufs, this`disk
      ensures ok <==> dev == 1 && blockno < |disk|
      ensures Valid() && disk == old(disk) && OnlyBuf(old(bufs), bufs, i)
      ensures !ok ==> bufs == old(bufs)
      ensures ok ==>
        && bufs[i].valid && bufs[i].data == current[blockno]
        && bufs[i] == old(bufs)[i].(valid := true, data := bufs[i].data)
    {
      hide Ring, Unique;
      if !bufs[i].valid {
        if dev == 1 {
          ReadCoherent(bufs, disk, current, touched, refs, i);
        }
        ok := Iderw(i);
        return ok;
      }
      return true;
    }

    /** The holder of the lock changes the data. */
    method Modify(i: nat, data: Block)
      requires Valid() && i < HEAD && bufs[i].locked && bufs[i].valid
      modifies this`bufs, this`current, this`touched
      ensures Valid() && OnlyBuf(old(bufs), bufs, i) && bufs[i] == old(bufs)[i].(data := data)
      ensures current == old(current)[bufs[i].blockno := data] && touched == old(touched) + {i}
    {
      hide Ring, Unique;
      var b, n := bufs[i], bufs[i].blockno;
      ChangeCoherent(bufs, disk, current, touched, i, b.(data := data), disk, current[n := data], touched + {i});
      CountedFrame(bufs, refs, i, b.(data := data));
      bufs := bufs[i := b.(data := data)];
      current := current[n := data];
      touched := touched + {i};
    }

    /** What log_write does to the buffer: B_DIRTY keeps it in the cache. */
    method Pin(i: nat)
      requires Valid() && i < HEAD && bufs[i].locked && bufs[i].valid
      modifies this`bufs, this`touched
      ensures Valid() && OnlyBuf(old(bufs), bufs, i) && bufs[i] == old(bufs)[i].(dirty := true)
      ensures touched == old(touched) - {i}
    {
      hide Ring, Unique;
      var b := bufs[i].(dirty := true);
      ChangeCoherent(bufs, disk, current, touched, i, b, disk, current, touched - {i});
      CountedFrame(bufs, refs, i, b);
      bufs := bufs[i := b];
      touched := touched - {i};
    }

    /** bwrite: the content reaches the disk and the buffer is clean; panics as iderw does. */
    method Bwrite(i: nat) returns (ok: bool)
      requires Valid() && i < HEAD
      modifies this`bufs, this`disk, this`current, this`touched
      ensures ok <==> old(bufs)[i].locked && old(bufs)[i].dev == 1 && old(bufs)[i].blockno < |old(disk)|
      ensures ok ==>
        && Valid() && OnlyBuf(old(bufs), bufs, i)
        && bufs[i] == old(bufs)[i].(dirty := false, valid := true)
        && disk == old(disk)[bufs[i].blockno := bufs[i].data]
        && current == old(current)[bufs[i].blockno := bufs[i].data]
        && touched == old(touched) - {i}
    {
      hide Ring, Unique, Coherent, Counted;
      if !bufs[i].locked {
        return false;
      }
      ghost var bs, n := bufs, bufs[i].blockno;
      if bufs[i].dev == 1 && n < |disk| {
        WriteCoherent(bufs, disk, current, touched, refs, i);
      }
      bufs := bufs[i := bufs[i].(dirty := true)];
      ok := Iderw(i);
      if ok {
        assert bufs == bs[i := bs[i].(dirty := false, valid := true)];
        current := current[n := bs[i].data];
        touched := touched - {i};
      }
    }

    /** The releasesleep inside brelse; the caller must have logged or written its changes. */
    method Unlock(i: nat) returns (ok: bool)
      requires Valid() && i < HEAD && i !in touched
      modifies this`bufs
      ensures ok <==> old(bufs)[i].locked
      ensures Valid() && OnlyBuf(old(bufs), bufs, i) && bufs[i] == old(bufs)[i].(locked := false)
    {
      hide Ring, Unique;
      if !bufs[i].locked {
        return false;
      }
      LockFrame(bufs, disk, current, touched, refs, i, false);
      bufs := bufs[i := bufs[i].(locked := false)];
      return true;
    }

    /** The rest of brelse: drop the reference, and with the last one move the buffer to the front. */
    method Drop(i: nat, dev: nat, blockno: nat)
      requires Valid() && (i, dev, blockno) in refs && (bufs[i].locked ==> bufs[i].refcnt > 1)
      modifies this
      ensures Valid() && OnlyBuf(old(bufs), bufs, i) && bufs[i] == old(bufs)[i].(refcnt := old(bufs)[i].refcnt - 1)
      ensures refs == old(refs) - multiset{(i, dev, blockno)}
      ensures disk == old(disk) && current == old(current) && touched == old(touched)
      ensures bufs[i].refcnt == 0 ==> next[HEAD] == i && at == old(at)[i := old(clock)]
      ensures bufs[i].refcnt != 0 ==> next == old(next) && prev == old(prev) && at == old(at)
    {
      hide Ring, Unique, Coherent, Moved, Counted;
      RefBound(bufs, refs, i, dev, blockno);
      DropRef(bufs, disk, current, touched, refs, i, dev, blockno);
      bufs := bufs[i := bufs[i].(refcnt := bufs[i].refcnt - 1)];
      refs := refs - multiset{(i, dev, blockno)};
      if bufs[i].refcnt == 0 {
        MoveToFront(i);
      }
    }

    /** The pointer surgery of brelse. */
    method MoveToFront(i: nat)
      requires Ring(next, prev, at) && i < HEAD && forall x :: 0 <= x < HEAD ==> at[x] < clock
      modifies this`next, this`prev, this`at, this`clock
      ensures Ring(next, prev, at) && next[HEAD] == i && at == old(at)[i := old(clock)]
      ensures clock == old(clock) + 1 && forall x :: 0 <= x < HEAD ==> at[x] < clock
    {
      hide Ring, Moved;
      MovedRing(next, prev, at, i, clock);
      MovedFirst(next, prev, at, i);
      RingBounds(next, prev, at);
      var m := Moved(next, prev, i);
      next, prev := m.0, m.1;
      at, clock := at[i := clock], clock + 1;
    }
  }

  lemma MovedFirst(next: Links, prev: Links, at: Stamps, b: nat)
    requires Ring(next, prev, at) && b < HEAD
    ensures next[b] <= HEAD && prev[b] <= HEAD && next[HEAD] < HEAD
    ensures |Moved(next, prev, b).0| == HEAD + 1 && Moved(next, prev, b).0[HEAD] == b
  {
    MovedLinks(next, prev, at, b, HEAD);
    assert Follows(next, prev, at, HEAD);
    assert next[prev[b]] == b;
  }

  /** A new value for buffer i under the same name and count keeps the count right. */
  lemma CountedFrame(bufs: seq<Buf>, refs: multiset<Ref>, i: nat, b: Buf)
    requires Counted(bufs, refs) && i < |bufs|
    requires b.dev == bufs[i].dev && b.blockno == bufs[i].blockno && b.refcnt == bufs[i].refcnt
    requires b.locked ==> bufs[i].locked
    ensures Counted(bufs[i := b], refs)
  {
  }

  lemma LockFrame(bufs: seq<Buf>, disk: seq<Block>, current: seq<Block>, touched: set<nat>, refs: multiset<Ref>, i: nat, on: bool)
    requires Coherent(bufs, disk, current, touched) && Counted(bufs, refs) && Unique(bufs) && i < |bufs|
    requires if on then bufs[i].refcnt > 0 else i !in touched
    ensures var b := bufs[i := bufs[i].(locked := on)];
            Coherent(b, disk, current, touched) && Unique(b) && Counted(b, refs)
  {
    SameContents(bufs, bufs[i := bufs[i].(locked := on)], disk, current, touched);
  }

  /** An invalid buffer filled from the disk gets the current content: nothing newer can be elsewhere. */
  lemma ReadCoherent(bufs: seq<Buf>, disk: seq<Block>, current: seq<Block>, touched: set<nat>, refs: multiset<Ref>, i: nat)
    requires Coherent(bufs, disk, current, touched) && Counted(bufs, refs) && Unique(bufs) && i < |bufs|
    requires !bufs[i].valid && bufs[i].dev == 1
    ensures bufs[i].blockno < |disk| ==>
      var b := bufs[i := bufs[i].(data := disk[bufs[i].blockno], valid := true)];
      && Coherent(b, disk, current, touched) && Unique(b) && Counted(b, refs)
      && disk[bufs[i].blockno] == current[bufs[i].blockno]
  {
    var n := bufs[i].blockno;
    if n < |disk| {
      assert forall j :: 0 <= j < |bufs| ==> !Caches(bufs[j], n);
      assert disk[n] == current[n];
      ChangeCoherent(bufs, disk, current, touched, i, bufs[i].(data := disk[n], valid := true), disk, current, touched);
    }
  }

  lemma RefBound(bufs: seq<Buf>, refs: multiset<Ref>, i: nat, dev: nat, n: nat)
    requires Counted(bufs, refs) && (i, dev, n) in refs
    ensures i < |bufs|
  {
  }

  /** Writing buffer i to its block makes disk, buffer and current content agree. */
  lemma WriteCoherent(bufs: seq<Buf>, disk: seq<Block>, current: seq<Block>, touched: set<nat>, refs: multiset<Ref>, i: nat)
    requires Coherent(bufs, disk, current, touched) && Counted(bufs, refs) && Unique(bufs) && i < |bufs|
    requires bufs[i].dev == 1 && bufs[i].blockno < |disk|
    ensures |current| == |disk|
    ensures var b, n := bufs[i].(dirty := false, valid := true), bufs[i].blockno;
            Coherent(bufs[i := b], disk[n := b.data], current[n := b.data], touched - {i})
            && Unique(bufs[i := b]) && Counted(bufs[i := b], refs)
  {
    var b, n := bufs[i].(dirty := false, valid := true), bufs[i].blockno;
    ChangeCoherent(bufs, disk, current, touched, i, b, disk[n := b.data], current[n := b.data], touched - {i});
    CountedFrame(bufs, refs, i, b);
  }

  lemma DropRef(bufs: seq<Buf>, disk: seq<Block>, current: seq<Block>, touched: set<nat>, refs: multiset<Ref>, i: nat, dev: nat, n: nat)
    requires Coherent(bufs, disk, current, touched) && Counted(bufs, refs) && Unique(bufs)
    requires (i, dev, n) in refs && i < |bufs| && (bufs[i].locked ==> bufs[i].refcnt > 1)
    ensures bufs[i].refcnt > 0
    ensures var b := bufs[i := bufs[i].(refcnt := bufs[i].refcnt - 1)];
            Coherent(b, disk, current, touched) && Unique(b) && Counted(b, refs - multiset{(i, dev, n)})
  {
    assert bufs[i].dev == dev && bufs[i].blockno == n;
    assert bufs[i].refcnt > 0;
    SameContents(bufs, bufs[i := bufs[i].(refcnt := bufs[i].refcnt - 1)], disk, current, touched);
  }

  lemma InitRing(n: Links, p: Links, a: Stamps)
    requires |n| == |p| == HEAD + 1 && |a| == HEAD
    requires n[HEAD] == HEAD - 1 && p[HEAD] == 0
    requires forall i :: 0 <= i < HEAD ==> n[i] == (if i == 0 then HEAD else i - 1) && p[i] == (if i == HEAD - 1 then HEAD else i + 1)
    requires forall i :: 0 <= i < HEAD ==> a[i] == i
    ensures Ring(n, p, a)
  {
    forall q | 0 <= q <= HEAD
      ensures Follows(n, p, a, q)
    {
    }
  }

  lemma RingBounds(next: Links, prev: Links, at: Stamps)
    requires Ring(next, prev, at)
    ensures |next| == |prev| == HEAD + 1 && |at| == HEAD
  {
  }

  lemma RecyclableIs(b: Buf)
    ensures Recyclable(b) <==> b.refcnt == 0 && !b.dirty
  {
  }

  lemma AddRef(bufs: seq<Buf>, disk: seq<Block>, current: seq<Block>, touched: set<nat>, refs: multiset<Ref>, i: nat)
    requires Coherent(bufs, disk, current, touched) && Counted(bufs, refs) && Unique(bufs) && i < |bufs|
    ensures var b := bufs[i := bufs[i].(refcnt := bufs[i].refcnt + 1)];
            Coherent(b, disk, current, touched) && Unique(b)
            && Counted(b, refs + multiset{(i, bufs[i].dev, bufs[i].blockno)})
  {
    var b := bufs[i := bufs[i].(refcnt := bufs[i].refcnt + 1)];
    SameContents(bufs, b, disk, current, touched);
  }

  /** Reference counts do not matter to coherence. */
  lemma SameContents(bufs: seq<Buf>, b: seq<Buf>, disk: seq<Block>, current: seq<Block>, touched: set<nat>)
    requires Coherent(bufs, disk, current, touched) && |b| == |bufs|
    requires forall i :: 0 <= i < |b| ==> b[i] == bufs[i].(refcnt := b[i].refcnt, locked := b[i].locked)
    requires forall i :: i in touched ==> b[i].locked
    ensures Coherent(b, disk, current, touched)
  {
    forall n | 0 <= n < |disk| && current[n] != disk[n]
      ensures exists i :: 0 <= i < |b| && Caches(b[i], n) && (b[i].dirty || i in touched)
    {
      var i :| 0 <= i < |bufs| && Caches(bufs[i], n) && (bufs[i].dirty || i in touched);
      assert Caches(b[i], n);
    }
  }
}
