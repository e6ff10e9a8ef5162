/**
The user-level allocator of umalloc.c (The C Programming Language, 2nd ed., section 8.7).

Addresses count header-sized units, eight bytes each.  The header fields ptr and size are
two maps from unit addresses; free and malloc update them exactly as the C code does.  The ghost
fields describe what they stand for: the blocks on the ring, the blocks handed out,
and for every unit ever obtained from sbrk the block it lies in.
*/
module Umalloc {
  import opened Params

  const UINT := 0x1_0000_0000
  const INT_MAX := 0x7FFF_FFFF
  const HEADER := 8

  type Field = map<int, int>

  // ----- the free ring -----

  /** ptr leads from p to the next free block by address, from the last one back to base. */
  ghost predicate Next(base: int, ptr: Field, free: set<int>, p: int) {
    && p in ptr && ptr[p] in free
    && if p < ptr[p] then forall x :: x in free ==> x <= p || ptr[p] <= x
       else ptr[p] == base && forall x :: x in free ==> x <= p
  }

  ghost predicate Ring(base: int, ptr: Field, free: set<int>) {
    && base in free
    && (forall p :: p in free ==> base <= p && p in ptr)
    && (forall p {:trigger Next(base, ptr, free, p)} :: p in free ==> Next(base, ptr, free, p))
  }

  /** In address order, neither overlapping nor adjacent. */
  ghost predicate Gaps(base: int, size: Field, free: set<int>) {
    && (forall p :: p in free ==> p in size && (if p == base then size[p] == 0 else size[p] >= 1))
    && (forall p, q :: p in free && q in free && p < q ==> p + size[p] < q)
  }

  /** The stretch of the ring from p up to, but not including, e. */
  ghost function ToGo(free: set<int>, p: int, e: int): set<int> {
    set x | x in free && (if p <= e then p <= x < e else x >= p || x < e)
  }

  /** One step along the ring shortens the way by exactly the block left behind. */
  lemma StepOn(base: int, ptr: Field, free: set<int>, p: int, e: int)
    requires Ring(base, ptr, free) && p in free && e in free && p != e
    ensures ToGo(free, ptr[p], e) == ToGo(free, p, e) - {p} && p in ToGo(free, p, e)
  {
    assert Next(base, ptr, free, p);
    assert base <= e;
  }

  /** Starting behind e, the whole ring lies ahead. */
  lemma FullCircle(base: int, ptr: Field, free: set<int>, e: int)
    requires Ring(base, ptr, free) && e in free
    ensures ptr[e] in free && ToGo(free, ptr[e], e) == free - {e}
  {
    assert Next(base, ptr, free, e);
  }

  ghost function Above(free: set<int>, p: int): set<int> {
    set x | x in free && x > p
  }

  lemma AboveShrinks(free: set<int>, p: int, q: int)
    requires p < q && q in free
    ensures Above(free, q) < Above(free, p)
  {
    assert q in Above(free, p) && q !in Above(free, q);
  }

  /** Where free puts bp: after the last free block below it. */
  ghost predicate Slot(ptr: Field, p: int, bp: int)
    requires p in ptr
  {
    p < bp && (p < ptr[p] ==> bp < ptr[p])
  }

  lemma SlotExists(base: int, ptr: Field, free: set<int>, bp: int) returns (s: int)
    requires Ring(base, ptr, free) && base < bp && bp !in free
    ensures s in free && s in ptr && Slot(ptr, s, bp)
  {
    s := base;
    assert Next(base, ptr, free, s);
    while !Slot(ptr, s, bp)
      invariant s in free && s in ptr && s < bp && Next(base, ptr, free, s)
      decreases Above(free, s)
    {
      AboveShrinks(free, s, ptr[s]);
      s := ptr[s];
      assert Next(base, ptr, free, s);
    }
  }

  /** The ring read off from p: addresses strictly increase until base comes round again. */
  ghost function Tour(base: int, ptr: Field, free: set<int>, p: int): seq<int>
    requires Ring(base, ptr, free) && p in free
    decreases Above(free, p)
  {
    assert Next(base, ptr, free, p);
    if ptr[p] == base then [p] else
      AboveShrinks(free, p, ptr[p]);
      [p] + Tour(base, ptr, free, ptr[p])
  }

  /** t leads along ptr from p to the last block, upwards, through exactly the free blocks from p on. */
  ghost predicate Cycle(base: int, ptr: Field, free: set<int>, p: int, t: seq<int>) {
    && |t| >= 1 && t[0] == p && t[|t| - 1] in ptr && ptr[t[|t| - 1]] == base
    && (forall i, j :: 0 <= i < j < |t| ==> t[i] < t[j])
    && (forall i :: 0 <= i < |t| - 1 ==> t[i] in ptr && ptr[t[i]] == t[i + 1])
    && (forall x :: x in t <==> x in free && x >= p)
  }

  lemma CycleCons(base: int, ptr: Field, free: set<int>, p: int, r: seq<int>)
    requires p in free && Next(base, ptr, free, p) && p < ptr[p] && Cycle(base, ptr, free, ptr[p], r)
    ensures Cycle(base, ptr, free, p, [p] + r)
  {
    var t := [p] + r;
    assert forall i :: 0 <= i < |r| ==> r[i] in r && r[i] > p;
    assert forall i :: 1 <= i < |t| ==> t[i] == r[i - 1];
    forall x
      ensures x in t <==> x in free && x >= p
    {
      assert x in t <==> x == p || x in r;
    }
  }

  lemma CycleEnd(base: int, ptr: Field, free: set<int>, p: int)
    requires Ring(base, ptr, free) && p in free && Next(base, ptr, free, p) && ptr[p] == base
    ensures Cycle(base, ptr, free, p, [p])
  {
    assert base <= p;
  }

  /** The free list is one address-ordered cycle through base and holds every free block. */
  lemma {:induction false} RingIsOneCycle(base: int, ptr: Field, free: set<int>, p: int)
    requires Ring(base, ptr, free) && p in free
    ensures Cycle(base, ptr, free, p, Tour(base, ptr, free, p))
    decreases Above(free, p)
  {
    hide Cycle;
    assert Next(base, ptr, free, p);
    if ptr[p] == base {
      CycleEnd(base, ptr, free, p);
    } else {
      AboveShrinks(free, p, ptr[p]);
      RingIsOneCycle(base, ptr, free, ptr[p]);
      CycleCons(base, ptr, free, p, Tour(base, ptr, free, ptr[p]));
    }
  }

  lemma RingInsert(base: int, ptr: Field, free: set<int>, p: int, b: int)
    requires Ring(base, ptr, free) && p in free && b !in free && Slot(ptr, p, b)
    ensures Ring(base, ptr[b := ptr[p]][p := b], free + {b})
  {
    assert Next(base, ptr, free, p);
    var ptr' := ptr[b := ptr[p]][p := b];
    forall x | x in free + {b}
      ensures base <= x && Next(base, ptr', free + {b}, x)
    {
      assert x != b ==> Next(base, ptr, free, x);
    }
  }

  lemma RingRemove(base: int, ptr: Field, free: set<int>, p: int)
    requires Ring(base, ptr, free) && p in free && p < ptr[p]
    ensures ptr[p] in ptr && Ring(base, ptr[p := ptr[ptr[p]]], free - {ptr[p]})
  {
    assert Next(base, ptr, free, p);
    var q := ptr[p];
    assert Next(base, ptr, free, q);
    var ptr' := ptr[p := ptr[q]];
    forall x | x in free - {q}
      ensures base <= x && Next(base, ptr', free - {q}, x)
    {
      assert Next(base, ptr, free, x);
    }
  }

  lemma RingFrame(base: int, ptr: Field, free: set<int>, b: int, v: int)
    requires Ring(base, ptr, free) && b !in free
    ensures Ring(base, ptr[b := v], free)
  {
    forall x | x in free
      ensures base <= x && Next(base, ptr[b := v], free, x)
    {
      assert Next(base, ptr, free, x);
    }
  }

  lemma GapsInsert(base: int, size: Field, free: set<int>, b: int)
    requires Gaps(base, size, free) && b in size && size[b] >= 1 && b != base
    requires forall x :: x in free && x < b ==> x + size[x] < b
    requires forall x :: x in free && b < x ==> b + size[b] < x
    ensures Gaps(base, size, free + {b})
  {
  }

  lemma GapsResize(base: int, size: Field, free: set<int>, p: int, n: int)
    requires Gaps(base, size, free) && p in free && p != base && n >= 1
    requires forall x :: x in free && p < x ==> p + n < x
    ensures Gaps(base, size[p := n], free)
  {
  }

  lemma GapsFrame(base: int, size: Field, free: set<int>, b: int, n: int)
    requires Gaps(base, size, free) && b !in free
    ensures Gaps(base, size[b := n], free)
  {
  }

  // ----- blocks partition the units -----

  ghost predicate Covers(size: Field, h: int, u: int) {
    h in size && h <= u < h + size[h]
  }

  /** Every unit lies in exactly one block, and every block holds only its own units. */
  ghost predicate Tiling(size: Field, blocks: set<int>, owner: Field) {
    && (forall h, u {:trigger Covers(size, h, u)} ::
          h in blocks && Covers(size, h, u) ==> u in owner && owner[u] == h)
    && (forall u :: u in owner ==> owner[u] in blocks && Covers(size, owner[u], u))
  }

  /** The n units from b on, given to block h. */
  ghost function Reown(owner: Field, b: int, n: int, h: int): (r: Field)
    ensures r.Keys == owner.Keys
  {
    map u | u in owner :: if b <= u < b + n then h else owner[u]
  }

  lemma TilingMerge(size: Field, blocks: set<int>, owner: Field, b: int, c: int)
    requires Tiling(size, blocks, owner) && b in blocks && c in blocks && b in size && c in size
    requires b + size[b] == c && size[b] >= 1 && size[c] >= 0
    ensures Tiling(size[b := size[b] + size[c]], blocks - {c}, Reown(owner, c, size[c], b))
  {
    var size' := size[b := size[b] + size[c]];
    var owner' := Reown(owner, c, size[c], b);
    forall h, u | h in blocks - {c} && Covers(size', h, u)
      ensures u in owner' && owner'[u] == h
    {
      if c <= u < c + size[c] {
        assert Covers(size, c, u);
        assert h != b ==> Covers(size, h, u);
      } else {
        assert Covers(size, h, u);
      }
    }
    forall u | u in owner'
      ensures owner'[u] in blocks - {c} && Covers(size', owner'[u], u)
    {
      assert Covers(size, owner[u], u);
    }
  }

  lemma TilingSplit(size: Field, blocks: set<int>, owner: Field, p: int, n: int)
    requires Tiling(size, blocks, owner) && p in blocks && p in size && 1 <= n < size[p]
    ensures var h := p + size[p] - n;
            Tiling(size[p := size[p] - n][h := n], blocks + {h}, Reown(owner, h, n, h))
            && (h in blocks ==> h !in size || size[h] <= 0)
  {
    var h := p + size[p] - n;
    var size' := size[p := size[p] - n][h := n];
    var owner' := Reown(owner, h, n, h);
    assert Covers(size, p, h);
    assert h in blocks && Covers(size, h, h) ==> h == p;
    forall g, u | g in blocks + {h} && Covers(size', g, u)
      ensures u in owner' && owner'[u] == g
    {
      if h <= u < h + n {
        assert Covers(size, p, u);
        assert g != p && g != h ==> Covers(size, g, u);
      } else {
        assert Covers(size, g, u);
      }
    }
    forall u | u in owner'
      ensures owner'[u] in blocks + {h} && Covers(size', owner'[u], u)
    {
      assert Covers(size, owner[u], u);
    }
  }

  ghost function Units(a: int, n: nat): (r: set<int>)
    ensures forall u :: u in r <==> a <= u < a + n
  {
    if n == 0 then {} else Units(a, n - 1) + {a + n - 1}
  }

  ghost function Extend(owner: Field, a: int, n: nat): (r: Field)
    ensures r.Keys == owner.Keys + Units(a, n)
  {
    map u | u in owner.Keys + Units(a, n) :: if a <= u < a + n then a else owner[u]
  }

  lemma TilingGrow(size: Field, blocks: set<int>, owner: Field, a: int, n: nat)
    requires Tiling(size, blocks, owner) && n >= 1
    requires forall u :: u in owner ==> u < a
    ensures Tiling(size[a := n], blocks + {a}, Extend(owner, a, n))
    ensures a in blocks ==> a !in size || size[a] <= 0
  {
    assert a in blocks ==> !Covers(size, a, a);
    var size' := size[a := n];
    var owner' := Extend(owner, a, n);
    forall h, u | h in blocks + {a} && Covers(size', h, u)
      ensures u in owner' && owner'[u] == h
    {
      if h != a {
        assert Covers(size, h, u);
      }
    }
    forall u | u in owner'
      ensures owner'[u] in blocks + {a} && Covers(size', owner'[u], u)
    {
      if u < a {
        assert Covers(size, owner[u], u);
      }
    }
  }

  // ----- the whole arena -----

  /** Header fields, ring, blocks handed out, block of every unit, and the end of the last region. */
  datatype Arena = Arena(
    base: int, ptr: Field, size: Field, free: set<int>, live: set<int>, owner: Field, brk: int)

  ghost predicate Bounds(base: int, size: Field, free: set<int>, live: set<int>, owner: Field, brk: int) {
    && (forall h :: h in live ==> base < h && h in size && size[h] >= 1 && h !in free)
    && base < brk
    && (forall u :: u in owner ==> base < u < brk)
  }

  ghost predicate Sound(a: Arena) {
    && Ring(a.base, a.ptr, a.free)
    && Gaps(a.base, a.size, a.free)
    && Tiling(a.size, a.live + a.free, a.owner)
    && Bounds(a.base, a.size, a.free, a.live, a.owner, a.brk)
  }

  /** Live blocks keep clear of the free blocks on either side. */
  lemma Clearance(a: Arena, bp: int)
    requires Sound(a) && bp in a.live
    ensures forall x :: x in a.free && x < bp ==> x + a.size[x] <= bp
    ensures forall x :: x in a.free && bp < x ==> bp + a.size[bp] <= x
  {
    assert Covers(a.size, bp, bp);
    forall x | x in a.free
      ensures x < bp ==> x + a.size[x] <= bp
      ensures bp < x ==> bp + a.size[bp] <= x
    {
      assert !Covers(a.size, x, bp);
      assert bp < x ==> Covers(a.size, x, x) && !Covers(a.size, bp, x);
    }
  }

  /** free: the block after bp joins it. */
  ghost function JoinUpper(a: Arena, p: int, bp: int): Arena
    requires Sound(a) && bp in a.live && p in a.free
  {
    assert Next(a.base, a.ptr, a.free, p);
    var q := a.ptr[p];
    assert Next(a.base, a.ptr, a.free, q);
    a.(ptr := a.ptr[bp := a.ptr[q]][p := a.ptr[q]],
       size := a.size[bp := a.size[bp] + a.size[q]],
       free := a.free - {q},
       owner := Reown(a.owner, q, a.size[q], bp))
  }

  lemma JoinUpperSound(a: Arena, p: int, bp: int)
    requires Sound(a) && bp in a.live && p in a.free && Slot(a.ptr, p, bp) && bp + a.size[bp] == a.ptr[p]
    ensures var b := JoinUpper(a, p, bp);
            Sound(b) && p in b.free && Slot(b.ptr, p, bp) && bp + b.size[bp] != b.ptr[p]
  {
    assert Next(a.base, a.ptr, a.free, p);
    var q := a.ptr[p];
    assert Next(a.base, a.ptr, a.free, q);
    var b := JoinUpper(a, p, bp);
    assert Tiling(b.size, b.live + b.free, b.owner) by {
      TilingMerge(a.size, a.live + a.free, a.owner, bp, q);
      assert a.live + a.free - {q} == b.live + b.free;
    }
    assert Ring(b.base, b.ptr, b.free) by {
      RingFrame(a.base, a.ptr, a.free, bp, a.ptr[q]);
      RingRemove(a.base, a.ptr[bp := a.ptr[q]], a.free, p);
    }
    GapsFrame(a.base, a.size, b.free, bp, b.size[bp]);
  }

  /** free: bp enters the ring after p. */
  ghost function LinkIn(a: Arena, p: int, bp: int): Arena
    requires p in a.ptr
  {
    a.(ptr := a.ptr[bp := a.ptr[p]][p := bp], free := a.free + {bp}, live := a.live - {bp})
  }

  lemma LinkInSound(a: Arena, p: int, bp: int)
    requires Sound(a) && bp in a.live && p in a.free && Slot(a.ptr, p, bp)
    requires p + a.size[p] != bp && bp + a.size[bp] != a.ptr[p]
    ensures Sound(LinkIn(a, p, bp))
  {
    assert Next(a.base, a.ptr, a.free, p);
    RingInsert(a.base, a.ptr, a.free, p, bp);
    assert a.live + a.free == (a.live - {bp}) + (a.free + {bp});
    assert Gaps(a.base, a.size, a.free + {bp}) by {
      Clearance(a, bp);
      assert forall x :: x in a.free && x < bp ==> x <= p && (x == p || x + a.size[x] < p);
      assert forall x :: x in a.free && bp < x ==> a.ptr[p] <= x;
      GapsInsert(a.base, a.size, a.free, bp);
    }
  }

  /** free: bp disappears into p. */
  ghost function JoinLower(a: Arena, p: int, bp: int): Arena
    requires p in a.ptr && p in a.size && bp in a.size
  {
    a.(ptr := a.ptr[bp := a.ptr[p]],
       size := a.size[p := a.size[p] + a.size[bp]],
       live := a.live - {bp},
       owner := Reown(a.owner, bp, a.size[bp], p))
  }

  lemma JoinLowerSound(a: Arena, p: int, bp: int)
    requires Sound(a) && bp in a.live && p in a.free && Slot(a.ptr, p, bp)
    requires p + a.size[p] == bp && bp + a.size[bp] != a.ptr[p]
    ensures Sound(JoinLower(a, p, bp))
  {
    assert Next(a.base, a.ptr, a.free, p);
    JoinLowerParts(a, p, bp);
    RingFrame(a.base, a.ptr, a.free, bp, a.ptr[p]);
  }

  lemma JoinLowerParts(a: Arena, p: int, bp: int)
    requires Sound(a) && bp in a.live && p in a.free && p in a.ptr && Next(a.base, a.ptr, a.free, p)
    requires Slot(a.ptr, p, bp) && p + a.size[p] == bp && bp + a.size[bp] != a.ptr[p]
    ensures Gaps(a.base, a.size[p := a.size[p] + a.size[bp]], a.free)
    ensures Tiling(a.size[p := a.size[p] + a.size[bp]], (a.live - {bp}) + a.free, Reown(a.owner, bp, a.size[bp], p))
    ensures Bounds(a.base, a.size[p := a.size[p] + a.size[bp]], a.free, a.live - {bp},
                   Reown(a.owner, bp, a.size[bp], p), a.brk)
    ensures bp !in a.free
  {
    Clearance(a, bp);
    GapsResize(a.base, a.size, a.free, p, a.size[p] + a.size[bp]);
    TilingMerge(a.size, a.live + a.free, a.owner, p, bp);
    assert a.live + a.free - {bp} == (a.live - {bp}) + a.free;
  }

  /** What free makes of the arena: join the upper neighbour, then the lower one. */
  ghost function Freed(a: Arena, p: int, bp: int): Arena
    requires Sound(a) && bp in a.live && p in a.free && Slot(a.ptr, p, bp)
  {
    var b := if bp + a.size[bp] == a.ptr[p] then JoinUpperSound(a, p, bp); JoinUpper(a, p, bp) else a;
    if p + b.size[p] == bp then JoinLower(b, p, bp) else LinkIn(b, p, bp)
  }

  lemma FreedSound(a: Arena, p: int, bp: int)
    requires Sound(a) && bp in a.live && p in a.free && Slot(a.ptr, p, bp)
    ensures var b := Freed(a, p, bp);
            && Sound(b) && p in b.free
            && b.live == a.live - {bp} && b.owner.Keys == a.owner.Keys && b.brk == a.brk && b.base == a.base
            && (forall h :: h in b.live ==> h in a.size && b.size[h] == a.size[h])
            && exists f :: f in b.free && f in b.size && f <= bp && bp + a.size[bp] <= f + b.size[f]
  {
    var b := if bp + a.size[bp] == a.ptr[p] then JoinUpper(a, p, bp) else a;
    if bp + a.size[bp] == a.ptr[p] {
      JoinUpperSound(a, p, bp);
    }
    assert Next(a.base, a.ptr, a.free, p);
    assert bp in b.size && b.size[bp] >= a.size[bp];
    var c := Freed(a, p, bp);
    if p + b.size[p] == bp {
      JoinLowerSound(b, p, bp);
      assert p in c.free && p <= bp && bp + a.size[bp] <= p + c.size[p];
    } else {
      LinkInSound(b, p, bp);
      assert bp in c.free && bp + a.size[bp] <= bp + c.size[bp];
    }
  }

  /** The header fields of the freed arena, assignment by assignment. */
  lemma FreedFields(a: Arena, p: int, bp: int)
    requires Sound(a) && bp in a.live && p in a.free && Slot(a.ptr, p, bp)
    ensures var q := a.ptr[p];
            q in a.ptr && q in a.size
            && var join := bp + a.size[bp] == q;
            var size := if join then a.size[bp := a.size[bp] + a.size[q]] else a.size;
            var ptr := a.ptr[bp := if join then a.ptr[q] else q];
            if p + size[p] == bp
            then Freed(a, p, bp).size == size[p := size[p] + size[bp]] && Freed(a, p, bp).ptr == ptr[p := ptr[bp]]
            else Freed(a, p, bp).size == size && Freed(a, p, bp).ptr == ptr[p := bp]
  {
    assert Next(a.base, a.ptr, a.free, p);
    assert Next(a.base, a.ptr, a.free, a.ptr[p]);
  }

  lemma FreedFree(a: Arena, p: int, bp: int)
    requires Sound(a) && bp in a.live && p in a.free && Slot(a.ptr, p, bp)
    ensures Freed(a, p, bp).free <= a.free + {bp} && (p + a.size[p] == bp ==> bp !in Freed(a, p, bp).free)
  {
  }

  /** Free blocks lie below the break. */
  lemma RegionAbove(a: Arena, at: int)
    requires Sound(a) && a.brk <= at
    ensures forall x :: x in a.free ==> x < at && x in a.size
  {
    forall x | x in a.free && x != a.base
      ensures x < at
    {
      assert Covers(a.size, x, x);
    }
  }

  /** A freed block above all others is the end of the last free block, and the other blocks are as before. */
  lemma RegionLast(a: Arena, p: int, bp: int, n: int)
    requires Sound(a) && bp in a.live && p in a.free && Slot(a.ptr, p, bp) && n >= 1
    requires forall x :: x in a.free ==> x < bp && x in a.size
    ensures var b := Freed(a, p, bp);
            (forall x :: x in a.free ==> a.size[x] < n) ==>
            forall x :: x in b.free && x in b.size && b.size[x] >= n ==> x + b.size[x] == bp + a.size[bp]
  {
    hide Freed;
    FreedFields(a, p, bp);
    FreedFree(a, p, bp);
    assert Next(a.base, a.ptr, a.free, p);
  }

  /** malloc, exact fit: the block after prevp leaves the ring. */
  ghost function TakeOut(a: Arena, prevp: int): Arena
    requires prevp in a.ptr && a.ptr[prevp] in a.ptr
  {
    var p := a.ptr[prevp];
    a.(ptr := a.ptr[prevp := a.ptr[p]], free := a.free - {p}, live := a.live + {p})
  }

  lemma TakeOutSound(a: Arena, prevp: int)
    requires Sound(a) && prevp in a.free && prevp in a.ptr && a.ptr[prevp] in a.size && a.size[a.ptr[prevp]] >= 1
    ensures a.ptr[prevp] in a.ptr && Sound(TakeOut(a, prevp))
    ensures prevp in TakeOut(a, prevp).free
  {
    assert Next(a.base, a.ptr, a.free, prevp);
    RingRemove(a.base, a.ptr, a.free, prevp);
    var p := a.ptr[prevp];
    assert a.live + a.free == (a.live + {p}) + (a.free - {p});
  }

  /** malloc, larger block: the last n units of p become a block of their own. */
  ghost function SplitOff(a: Arena, p: int, n: int): Arena
    requires p in a.size
  {
    var h := p + a.size[p] - n;
    a.(size := a.size[p := a.size[p] - n][h := n], live := a.live + {h}, owner := Reown(a.owner, h, n, h))
  }

  lemma SplitOffSound(a: Arena, p: int, n: int)
    requires Sound(a) && p in a.free && 1 <= n < a.size[p]
    ensures Sound(SplitOff(a, p, n)) && p + a.size[p] - n !in a.live
  {
    hide Ring, Gaps, Tiling, Bounds, Reown;
    SplitOffParts(a, p, n);
  }

  lemma SplitOffParts(a: Arena, p: int, n: int)
    requires Sound(a) && p in a.free && 1 <= n < a.size[p]
    ensures var h := p + a.size[p] - n;
            var size' := a.size[p := a.size[p] - n][h := n];
            && h !in a.live && h !in a.free
            && Gaps(a.base, size', a.free)
            && Tiling(size', (a.live + {h}) + a.free, Reown(a.owner, h, n, h))
            && Bounds(a.base, size', a.free, a.live + {h}, Reown(a.owner, h, n, h), a.brk)
  {
    var h := p + a.size[p] - n;
    assert h !in a.free;
    TilingSplit(a.size, a.live + a.free, a.owner, p, n);
    assert a.live + a.free + {h} == (a.live + {h}) + a.free;
    GapsResize(a.base, a.size, a.free, p, a.size[p] - n);
    GapsFrame(a.base, a.size[p := a.size[p] - n], a.free, h, n);
  }

  /** The last n units of a free block were free units. */
  lemma CarveUnits(a: Arena, p: int, n: int)
    requires Sound(a) && p in a.free && 1 <= n <= a.size[p]
    ensures p !in a.live
    ensures forall u :: p + a.size[p] - n <= u < p + a.size[p] ==> u in a.owner && a.owner[u] in a.free
  {
    forall u | p + a.size[p] - n <= u < p + a.size[p]
      ensures u in a.owner && a.owner[u] in a.free
    {
      assert Covers(a.size, p, u);
    }
  }

  /** sbrk: a fresh region beyond all earlier ones joins as one live block. */
  ghost function AddRegion(a: Arena, at: int, n: nat): Arena {
    a.(size := a.size[at := n], live := a.live + {at}, owner := Extend(a.owner, at, n), brk := at + n)
  }

  lemma AddRegionSound(a: Arena, at: int, n: nat)
    requires Sound(a) && n >= 1 && a.brk <= at
    ensures Sound(AddRegion(a, at, n)) && at !in a.live
  {
    TilingGrow(a.size, a.live + a.free, a.owner, at, n);
    assert a.live + a.free + {at} == (a.live + {at}) + a.free;
    assert at !in a.free;
  }

  // ----- request sizes in unsigned 32-bit arithmetic -----

  function NUnits(nbytes: nat): (n: nat)
    ensures n >= 1
  {
    ((nbytes + HEADER - 1) % 0x1_0000_0000) / 8 + 1
  }

  function Request(nunits: nat): nat {
    if nunits < 4096 then 4096 else nunits
  }

  /** The block is large enough for the request exactly when rounding up did not wrap. */
  lemma UnitsSuffice(nbytes: nat)
    requires nbytes < UINT
    ensures (NUnits(nbytes) - 1) * 8 >= nbytes <==> nbytes <= UINT - HEADER
  {
    if nbytes <= UINT - HEADER {
      assert (nbytes + HEADER - 1) % 0x1_0000_0000 == nbytes + HEADER - 1;
    } else {
      assert (nbytes + HEADER - 1) % 0x1_0000_0000 == nbytes + HEADER - 1 - UINT;
    }
  }

  /** The byte count reaches sbrk as a positive int exactly for requests below 2^31 bytes. */
  lemma RequestFits(nbytes: nat)
    requires nbytes <= UINT - HEADER
    ensures Request(NUnits(nbytes)) * 8 <= INT_MAX <==> nbytes <= INT_MAX + 1 - 16
  {
    assert (nbytes + HEADER - 1) % 0x1_0000_0000 == nbytes + HEADER - 1;
  }

  /** Unbacked: sbrk was asked for a count that is not positive as an int, so no memory stands behind the block. */
  datatype Result = Null | Block(addr: int) | Unbacked

  // ----- what malloc's walk relies on -----

  lemma OnRing(a: Arena, p: int)
    requires Sound(a) && p in a.free
    ensures a.base <= p && p in a.ptr && a.ptr[p] in a.free && p in a.size
  {
    assert Next(a.base, a.ptr, a.free, p);
  }

  lemma LiveSized(a: Arena)
    requires Sound(a)
    ensures forall h :: h in a.live ==> h in a.size && h != a.base
  {
  }

  /** Every free block is still ahead on the way from p to e, or is e, or is too small for n units. */
  ghost predicate Passed(a: Arena, p: int, e: int, n: int) {
    forall x :: x in a.free ==> x in a.size && (x in ToGo(a.free, p, e) || x == e || a.size[x] < n)
  }

  lemma Round(a: Arena, e: int)
    requires Sound(a) && e in a.free
    ensures e in a.ptr && forall n :: Passed(a, a.ptr[e], e, n)
  {
    FullCircle(a.base, a.ptr, a.free, e);
  }

  lemma StepOnward(a: Arena, p: int, e: int)
    requires Sound(a) && p in a.free && e in a.free && p != e
    ensures p in a.ptr && ToGo(a.free, a.ptr[p], e) < ToGo(a.free, p, e)
    ensures forall n :: Passed(a, p, e, n) && a.size[p] < n ==> Passed(a, a.ptr[p], e, n)
  {
    StepOn(a.base, a.ptr, a.free, p, e);
  }

  lemma RoundDone(a: Arena, e: int, n: int)
    requires Sound(a) && e in a.free && e in a.size && a.size[e] < n && Passed(a, e, e, n)
    ensures forall x :: x in a.free && x in a.size ==> a.size[x] < n
  {
  }

  class Heap {
    const base: int
    var ptr: Field
    var size: Field
    var freep: int  // 0 before the first call
    ghost var free: set<int>
    ghost var live: set<int>
    ghost var owner: Field
    ghost var brk: int

    ghost function Abs(): Arena
      reads this
    {
      Arena(base, ptr, size, free, live, owner, brk)
    }

    ghost predicate Valid()
      reads this
    {
      && 0 < base < brk
      && if freep == 0 then free == {} && live == {} && owner == map[]
         else Sound(Abs()) && freep in free
    }

    constructor (base: int, brk: int)
      requires 0 < base < brk
      ensures Valid() && freep == 0 && this.base == base && this.brk == brk
    {
      this.base, this.brk := base, brk;
      this.ptr, this.size, this.freep := map[], map[], 0;
      this.free, this.live, this.owner := {}, {}, map[];
    }

    /** A block on the ring with at least n units. */
    ghost predicate Fits(n: int)
      reads this
    {
      exists x :: x in free && x in size && size[x] >= n
    }

    method Free(ap: int)
      requires Valid() && ap - 1 in live
      modifies this
      ensures Valid() && freep != 0
      ensures live == old(live) - {ap - 1}
      ensures owner.Keys == old(owner.Keys) && brk == old(brk)
      ensures forall h :: h in live ==> h in old(size) && size[h] == old(size)[h]
      // the freed block now lies inside one free block
      ensures exists f :: f in free && f in size && f <= ap - 1 && ap - 1 + old(size)[ap - 1] <= f + size[f]
      // freep is the last free block below it
      ensures freep in old(free) && freep < ap - 1 && forall x :: x in old(free) && x < ap - 1 ==> x <= freep
      ensures freep in old(ptr) && Slot(old(ptr), freep, ap - 1) && Abs() == Freed(old(Abs()), freep, ap - 1)
    {
      var bp := ap - 1;
      var p := freep;
      ghost var s := SlotExists(base, ptr, free, bp);
      while !(bp > p && bp < ptr[p])
        invariant p in free
        modifies {}
        decreases ToGo(free, p, s)
      {
        assert Next(base, ptr, free, p);
        if p >= ptr[p] && (bp > p || bp < ptr[p]) {
          break;
        }
        StepOn(base, ptr, free, p, s);
        p := ptr[p];
      }
      assert Next(base, ptr, free, p);
      assert Slot(ptr, p, bp);
      Release(p, bp);
    }

    /** The pointer surgery at the end of free: join the upper neighbour, then the lower one. */
    method Release(p: int, bp: int)
      requires Valid() && freep != 0 && bp in live && p in free && Slot(ptr, p, bp)
      modifies this
      ensures Valid() && freep == p
      ensures live == old(live) - {bp}
      ensures owner.Keys == old(owner.Keys) && brk == old(brk)
      ensures forall h :: h in live ==> h in old(size) && size[h] == old(size)[h]
      ensures exists f :: f in free && f in size && f <= bp && bp + old(size)[bp] <= f + size[f]
      ensures Abs() == Freed(old(Abs()), p, bp)
    {
      hide Sound, Freed;
      ghost var a := Abs();
      OnRing(a, p);
      OnRing(a, ptr[p]);
      LiveSized(a);
      FreedSound(a, p, bp);
      FreedFields(a, p, bp);
      ghost var b := Freed(a, p, bp);
      var q := ptr[p];
      if bp + size[bp] == q {
        size := size[bp := size[bp] + size[q]];
        ptr := ptr[bp := ptr[q]];
      } else {
        ptr := ptr[bp := q];
      }
      if p + size[p] == bp {
        size := size[p := size[p] + size[bp]];
        ptr := ptr[p := ptr[bp]];
      } else {
        ptr := ptr[p := bp];
      }
      freep := p;
      free, live, owner := b.free, b.live, b.owner;
      assert Abs() == b;
    }

    /** morecore: obtain a region of at least nu units and put it on the ring. */
    method Morecore(nunits: nat, region: Option<int>) returns (p: int, backed: bool)
      requires Valid() && freep != 0 && nunits >= 1
      requires region.Some? ==> region.value >= brk
      modifies this
      ensures backed <==> region.None? || (if nunits < 4096 then 4096 else nunits) * 8 <= INT_MAX
      ensures p == 0 || !backed ==>
        ptr == old(ptr) && size == old(size) && freep == old(freep)
        && free == old(free) && live == old(live) && owner == old(owner) && brk == old(brk)
      ensures backed ==> (p == 0 <==> region.None?)
      ensures p != 0 && backed ==>
        && Valid() && p == freep && p in free
        && live == old(live)
        && owner.Keys == old(owner.Keys) + Units(region.value, if nunits < 4096 then 4096 else nunits)
        && (forall h :: h in live ==> h in old(size) && size[h] == old(size)[h])
        && Fits(nunits)
        // if nothing was large enough before, only the block that now ends with the region is
        && (!old(Fits(nunits)) ==> forall x :: x in free && x in size && size[x] >= nunits ==>
              x + size[x] == region.value + if nunits < 4096 then 4096 else nunits)
    {
      hide Sound, Units, Freed, Slot;
      ghost var a := Abs();
      var nu := nunits;
      if nu < 4096 {
        nu := 4096;
      }
      if region.None? {
        return 0, true;
      }
      if nu * 8 > INT_MAX {
        return 1, false;
      }
      var hp := region.value;
      AddRegionSound(a, hp, nu);
      RegionAbove(a, hp);
      ghost var b := AddRegion(Abs(), hp, nu);
      size := size[hp := nu];
      live, owner, brk := b.live, b.owner, b.brk;
      assert Abs() == b;
      Free(hp + 1);
      RegionLast(b, freep, hp, nunits);
      return freep, true;
    }

    /** The first call finds freep null and makes base the whole ring. */
    method Start()
      requires Valid()
      modifies this
      ensures Valid() && freep != 0
      ensures old(freep) != 0 ==> ptr == old(ptr) && size == old(size) && freep == old(freep) && free == old(free)
      ensures old(freep) == 0 ==> free == {base} && size == old(size)[base := 0]
      ensures live == old(live) && owner == old(owner) && brk == old(brk)
    {
      if freep == 0 {
        ptr := ptr[base := base];
        freep := base;
        size := size[base := 0];
        free := {base};
        assert Next(base, ptr, free, base);
      }
    }

    /** Carve nunits out of the block p that follows prevp. */
    method Carve(prevp: int, nunits: nat) returns (addr: int)
      requires Valid() && freep != 0 && prevp in free && nunits >= 1
      requires ptr[prevp] in size && size[ptr[prevp]] >= nunits
      modifies this
      ensures Valid() && freep == prevp
      ensures addr - 1 !in old(live) && live == old(live) + {addr - 1}
      ensures addr - 1 in size && size[addr - 1] == nunits
      // the end of the block, or all of it
      ensures addr - 1 + nunits == old(ptr)[prevp] + old(size)[old(ptr)[prevp]]
      ensures owner.Keys == old(owner.Keys) && brk == old(brk)
      ensures forall h :: h in old(live) ==> h in size && size[h] == old(size)[h]
      // every unit handed out was free before
      ensures forall u :: Covers(size, addr - 1, u) ==> u in old(owner) && old(owner)[u] in old(free)
    {
      hide Sound;
      ghost var a := Abs();
      OnRing(a, prevp);
      var p := ptr[prevp];
      OnRing(a, p);
      LiveSized(a);
      CarveUnits(a, p, nunits);
      if size[p] == nunits {
        TakeOutSound(a, prevp);
        ghost var b := TakeOut(a, prevp);
        ptr := ptr[prevp := ptr[p]];
        free, live := b.free, b.live;
        assert Abs() == b;
      } else {
        SplitOffSound(a, p, nunits);
        ghost var b := SplitOff(a, p, nunits);
        size := size[p := size[p] - nunits];
        p := p + size[p];
        size := size[p := nunits];
        live, owner := b.live, b.owner;
        assert Abs() == b;
      }
      freep := prevp;
      return p + 1;
    }

    method Malloc(nbytes: nat, region: Option<int>) returns (r: Result)
      requires Valid() && nbytes < UINT
      requires region.Some? ==> region.value >= brk
      modifies this
      ensures var n := NUnits(nbytes);
              var fits := old(Fits(n));
              var nu := if n < 4096 then 4096 else n;
              && (r.Null? <==> !fits && region.None?)
              && (r.Unbacked? <==> !fits && region.Some? && nu * 8 > INT_MAX)
              && (r.Block? ==>
                && Valid()
                && r.addr - 1 !in old(live) && live == old(live) + {r.addr - 1}
                && r.addr - 1 in size && size[r.addr - 1] == n
                && (forall h :: h in old(live) ==> h in size && size[h] == old(size)[h])
                && owner.Keys == old(owner.Keys) + (if fits then {} else Units(region.value, nu))
                // the end of the first block after freep that is large enough, or of the new region
                && (fits ==> exists p ::
                      && p in old(free) && p in old(size) && old(size)[p] >= n && r.addr - 1 + n == p + old(size)[p]
                      && Passed(old(Abs()), p, old(freep), n) && freep in old(ptr) && old(ptr)[freep] == p)
                && (!fits ==> r.addr - 1 + n == region.value + nu))
              && (r.Null? ==> Valid() && live == old(live) && owner == old(owner))
    {
      hide Sound, NUnits, ToGo, Passed;
      var nunits := NUnits(nbytes);
      ghost var nu := if nunits < 4096 then 4096 else nunits;
      if freep != 0 {
        LiveSized(Abs());
      }
      Start();
      var prevp := freep;
      OnRing(Abs(), prevp);
      var p := ptr[prevp];
      Round(Abs(), freep);
      ghost var grown := false;
      while true
        invariant Valid() && freep != 0
        invariant prevp in free && prevp in ptr && p == ptr[prevp] && p in free
        invariant Passed(Abs(), p, freep, nunits)
        invariant live == old(live)
        invariant forall h :: h in live ==> h in old(size) && h in size && size[h] == old(size)[h]
        invariant !grown ==> (Fits(nunits) <==> old(Fits(nunits))) && owner == old(owner) && brk == old(brk)
        invariant !grown && old(freep) != 0 ==> Abs() == old(Abs()) && freep == old(freep)
        invariant grown ==> Fits(nunits) && !old(Fits(nunits)) && region.Some? && nu * 8 <= INT_MAX
        invariant grown ==> owner.Keys == old(owner.Keys) + Units(region.value, nu)
        invariant grown ==> forall x :: x in free && x in size && size[x] >= nunits ==> x + size[x] == region.value + nu
        decreases if grown then 0 else 1, ToGo(free, p, freep)
      {
        OnRing(Abs(), p);
        if size[p] >= nunits {
          assert Fits(nunits);
          var addr := Carve(prevp, nunits);
          return Block(addr);
        }
        if p == freep {
          RoundDone(Abs(), freep, nunits);
          assert !Fits(nunits);
          var backed;
          p, backed := Morecore(nunits, region);
          if !backed {
            return Unbacked;
          }
          if p == 0 {
            return Null;
          }
          grown := true;
          LiveSized(Abs());
          Round(Abs(), freep);
        } else {
          StepOnward(Abs(), p, freep);
        }
        OnRing(Abs(), p);
        prevp := p;
        p := ptr[p];
      }
    }
  }
}
