/**
Virtual memory (vm.c) over the page pool (kalloc.c).  Page-directory and page-table code is checked
against the flat map from virtual page to (frame, flags), and every operation keeps the exact
division of the frames between the pool, the address spaces and the kernel.
*/
module Vm {
  import opened Params
  import opened Pages

  // ----- how many table pages a range of pages needs -----

  /** The absent entries among i..j of a directory. */
  ghost function Missing(pte: seq<Pte>, i: int, j: int): nat
    requires 0 <= i && j <= |pte|
    decreases j - i
  {
    if i >= j then 0 else Missing(pte, i, j - 1) + if pte[j - 1].Absent? then 1 else 0
  }

  /** The table pages that mapping pages first..a has to allocate. */
  ghost function Tables(pte: seq<Pte>, first: int, a: int): nat
    requires |pte| == 1024 && 0 <= first && a <= 0x10_0000
  {
    if a <= first then 0 else Missing(pte, first / 1024, (a - 1) / 1024 + 1)
  }

  /** pte is pte0 once pages first..a have all been walked with allocation. */
  ghost predicate Touched(pte0: seq<Pte>, pte: seq<Pte>, first: int, a: int) {
    && |pte0| == |pte| == 1024
    && forall i :: 0 <= i < 1024 ==>
         (pte[i].Absent? <==> pte0[i].Absent? && !(first < a && first / 1024 <= i <= (a - 1) / 1024))
  }

  lemma TablesStep(pte0: seq<Pte>, pte: seq<Pte>, first: int, a: int)
    requires Touched(pte0, pte, first, a) && 0 <= first <= a < 0x10_0000
    ensures Tables(pte0, first, a + 1) == Tables(pte0, first, a) + if pte[a / 1024].Absent? then 1 else 0
  {
    var i := a / 1024;
    if a == first {
      assert Missing(pte0, i, i) == 0;
    } else if a % 1024 == 0 {
      assert (a - 1) / 1024 + 1 == i;
    } else {
      assert (a - 1) / 1024 == i;
    }
  }

  lemma TablesOne(pte: seq<Pte>, a: int)
    requires |pte| == 1024 && 0 <= a < 0x10_0000
    ensures Tables(pte, a, a + 1) == if pte[a / 1024].Absent? then 1 else 0
  {
    assert Missing(pte, a / 1024, a / 1024) == 0;
  }

  lemma TouchedStep(pte0: seq<Pte>, pte: seq<Pte>, pte': seq<Pte>, first: int, a: int)
    requires Touched(pte0, pte, first, a) && Touched(pte, pte', a, a + 1) && 0 <= first <= a < 0x10_0000
    ensures Touched(pte0, pte', first, a + 1)
  {
  }

  lemma {:induction false} MissingNone(pte: seq<Pte>, i: int, k: int, j: int)
    requires 0 <= i <= k <= j <= |pte|
    requires forall x :: i <= x < k ==> pte[x].Present?
    requires forall x :: k <= x < j ==> pte[x].Absent?
    ensures Missing(pte, i, j) == j - k
    decreases j - i
  {
    if i < j {
      if k < j {
        MissingNone(pte, i, k, j - 1);
      } else {
        MissingNone(pte, i, k - 1, j - 1);
      }
    }
  }

  lemma {:induction false} TablesMono(pte: seq<Pte>, first: int, a: int, b: int)
    requires |pte| == 1024 && 0 <= first <= a <= b <= 0x10_0000
    ensures Tables(pte, first, a) <= Tables(pte, first, b)
  {
    if first < a {
      MissingMono(pte, first / 1024, (a - 1) / 1024 + 1, (b - 1) / 1024 + 1);
    }
  }

  lemma {:induction false} MissingMono(pte: seq<Pte>, i: int, j: int, k: int)
    requires 0 <= i && j <= k <= |pte|
    ensures Missing(pte, i, j) <= Missing(pte, i, k)
    decreases k - j
  {
    if j < k {
      MissingMono(pte, i, j, k - 1);
    }
  }

  // ----- what mapping does -----

  /** Pages first..first+k of d map to frames pa.. with these flags; the rest of d's map is as before. */
  ghost predicate MapEffect(mem0: Mem, mem: Mem, d: int, first: int, k: int, pa: int, w: bool, u: bool) {
    forall x :: 0 <= x < 0x10_0000 ==>
      Lookup(mem, d, x) == if first <= x < first + k then Present(pa + x - first, w, u) else Lookup(mem0, d, x)
  }

  /** Every other address space maps what it did. */
  ghost predicate OthersSame(mem0: Mem, owner0: Owner, mem: Mem, d: int) {
    forall e, x {:trigger Lookup(mem, e, x)} :: Is(owner0, e, Dir) && e != d ==> Lookup(mem, e, x) == Lookup(mem0, e, x)
  }

  /** Only tables of d come out of the pool, only tables of d are written, and the mapped user frames are now d's. */
  ghost predicate Grew(mem0: Mem, owner0: Owner, mem: Mem, owner: Owner, d: int, first: int, k: int, pa: int) {
    && |mem0| == |mem| == |owner0| == |owner|
    && forall f :: 0 <= f < |owner| ==>
         match owner0[f]
         case Free => owner[f] == Free || (owner[f].Table? && owner[f].d == d)
         case Held =>
           && mem[f] == mem0[f]
           && owner[f] == if pa <= f < pa + k && first + (f - pa) < KERNEL then User(d, first + (f - pa)) else Held
         case Table(e, _) => owner[f] == owner0[f] && (e == d || mem[f] == mem0[f])
         case _ => owner[f] == owner0[f] && (f == d || mem[f] == mem0[f])
  }

  /** The state after the first k pages of a mapping. */
  ghost predicate MapState(mem0: Mem, owner0: Owner, free0: seq<int>, mem: Mem, owner: Owner, free: seq<int>,
                           d: int, first: int, k: int, pa: int, w: bool, u: bool)
  {
    && 0 <= first && 0 <= k && first + k <= 0x10_0000
    && 0 <= d < |mem0| == |mem| && IsTable(mem0[d]) && IsTable(mem[d])
    && Touched(mem0[d].pte, mem[d].pte, first, first + k)
    && MapEffect(mem0, mem, d, first, k, pa, w, u)
    && OthersSame(mem0, owner0, mem, d)
    && Grew(mem0, owner0, mem, owner, d, first, k, pa)
    && Tables(mem0[d].pte, first, first + k) <= |free0|
    && free == free0[Tables(mem0[d].pte, first, first + k)..]
  }

  lemma MapStart(mem: Mem, owner: Owner, free: seq<int>, d: int, first: int, pa: int, w: bool, u: bool)
    requires |mem| == |owner| && 0 <= first <= 0x10_0000 && 0 <= d < |mem| && IsTable(mem[d])
    ensures MapState(mem, owner, free, mem, owner, free, d, first, 0, pa, w, u)
  {
  }

  lemma MapStep(mem0: Mem, owner0: Owner, free0: seq<int>, mem1: Mem, owner1: Owner, free1: seq<int>,
                mem: Mem, owner: Owner, free: seq<int>, d: int, first: int, k: int, pa: int, w: bool, u: bool)
    requires MapState(mem0, owner0, free0, mem1, owner1, free1, d, first, k, pa, w, u)
    requires MapState(mem1, owner1, free1, mem, owner, free, d, first + k, 1, pa + k, w, u)
    requires Is(owner0, d, Dir)
    ensures MapState(mem0, owner0, free0, mem, owner, free, d, first, k + 1, pa, w, u)
  {
    StepTouched(mem0, owner0, free0, mem1, owner1, free1, mem, owner, free, d, first, k, pa, w, u);
    StepOwner(mem0, owner0, mem1, owner1, mem, owner, d, first, k, pa);
    StepOthers(mem0, owner0, mem1, owner1, mem, d, first, k, pa);
    StepEffect(mem0, mem1, mem, d, first, k, pa, w, u);
  }

  lemma StepEffect(mem0: Mem, mem1: Mem, mem: Mem, d: int, first: int, k: int, pa: int, w: bool, u: bool)
    requires MapEffect(mem0, mem1, d, first, k, pa, w, u) && MapEffect(mem1, mem, d, first + k, 1, pa + k, w, u)
    requires 0 <= k
    ensures MapEffect(mem0, mem, d, first, k + 1, pa, w, u)
  {
    hide Lookup;
  }

  lemma StepOthers(mem0: Mem, owner0: Owner, mem1: Mem, owner1: Owner, mem: Mem, d: int, first: int, k: int, pa: int)
    requires OthersSame(mem0, owner0, mem1, d) && OthersSame(mem1, owner1, mem, d)
    requires Grew(mem0, owner0, mem1, owner1, d, first, k, pa)
    ensures OthersSame(mem0, owner0, mem, d)
  {
    hide Lookup;
    forall e, x | Is(owner0, e, Dir) && e != d
      ensures Lookup(mem, e, x) == Lookup(mem0, e, x)
    {
      assert Is(owner1, e, Dir);
      assert Lookup(mem, e, x) == Lookup(mem1, e, x);
    }
  }

  lemma StepOwner(mem0: Mem, owner0: Owner, mem1: Mem, owner1: Owner, mem: Mem, owner: Owner, d: int, first: int, k: int, pa: int)
    requires Grew(mem0, owner0, mem1, owner1, d, first, k, pa) && 0 <= k
    requires Grew(mem1, owner1, mem, owner, d, first + k, 1, pa + k) && Is(owner0, d, Dir)
    ensures Grew(mem0, owner0, mem, owner, d, first, k + 1, pa)
  {
  }

  lemma StepTouched(mem0: Mem, owner0: Owner, free0: seq<int>, mem1: Mem, owner1: Owner, free1: seq<int>,
                    mem: Mem, owner: Owner, free: seq<int>, d: int, first: int, k: int, pa: int, w: bool, u: bool)
    requires MapState(mem0, owner0, free0, mem1, owner1, free1, d, first, k, pa, w, u)
    requires MapState(mem1, owner1, free1, mem, owner, free, d, first + k, 1, pa + k, w, u)
    ensures Touched(mem0[d].pte, mem[d].pte, first, first + k + 1)
    ensures Tables(mem0[d].pte, first, first + k + 1) <= |free0|
    ensures free == free0[Tables(mem0[d].pte, first, first + k + 1)..]
  {
    hide MapEffect, OthersSame, Grew, Lookup;
    var pte0, pte1, a := mem0[d].pte, mem1[d].pte, first + k;
    TablesStep(pte0, pte1, first, a);
    TablesStep(pte1, pte1, a, a);
    TouchedStep(pte0, pte1, mem[d].pte, first, a);
  }


  // ----- one page -----

  /** t is the table for page v, found there already or just taken from the pool. */
  ghost predicate Walked(mem0: Mem, owner0: Owner, free0: seq<int>, mem: Mem, owner: Owner, free: seq<int>, d: int, v: int, t: int) {
    && 0 <= d < |mem0| == |owner0| && IsTable(mem0[d]) && 0 <= v < 0x10_0000 && 0 <= t < |mem0| && t != d
    && match mem0[d].pte[v / 1024]
       case Present(f, _, _) => f == t && mem == mem0 && owner == owner0 && free == free0
       case Absent =>
         && free0 != [] && free == free0[1..] && owner0[t] == Free
         && owner == owner0[t := Table(d, v / 1024)] && mem == WithTable(mem0, d, v / 1024, t)
  }

  /** Walking with allocation changes no map. */
  lemma WalkLookup(mem0: Mem, owner0: Owner, free0: seq<int>, mem: Mem, owner: Owner, free: seq<int>, lo: int, d: int, v: int, t: int, e: int, x: int)
    requires Owned(mem0, owner0, lo) && Is(owner0, d, Dir) && Is(owner0, e, Dir)
    requires Walked(mem0, owner0, free0, mem, owner, free, d, v, t)
    ensures Lookup(mem, e, x) == Lookup(mem0, e, x)
  {
    hide Lookup, Owned;
    if mem0[d].pte[v / 1024].Absent? {
      AddTableLookup(mem0, owner0, lo, d, v / 1024, t, e, x);
    }
  }

  lemma WalkState(mem0: Mem, owner0: Owner, free0: seq<int>, mem: Mem, owner: Owner, free: seq<int>, lo: int, d: int, v: int, t: int)
    requires Owned(mem0, owner0, lo) && Is(owner0, d, Dir)
    requires Walked(mem0, owner0, free0, mem, owner, free, d, v, t)
    ensures |mem| == |mem0| && IsTable(mem[d]) && Touched(mem0[d].pte, mem[d].pte, v, v + 1)
    ensures Grew(mem0, owner0, mem, owner, d, v, 0, 0)
    ensures Tables(mem0[d].pte, v, v + 1) <= |free0| && free == free0[Tables(mem0[d].pte, v, v + 1)..]
  {
    hide Owned;
    Sizes(mem0, owner0, lo);
    TablesStep(mem0[d].pte, mem0[d].pte, v, v);
  }

  /** The entry for page v of d is the whole change to the maps. */
  lemma MapOneLookup(mem0: Mem, owner0: Owner, free0: seq<int>, mem1: Mem, owner1: Owner, free1: seq<int>, lo: int,
                     d: int, v: int, t: int, p: Pte, e: int, x: int)
    requires Owned(mem0, owner0, lo) && Owned(mem1, owner1, lo) && Is(owner0, d, Dir) && Is(owner0, e, Dir)
    requires Walked(mem0, owner0, free0, mem1, owner1, free1, d, v, t)
    requires Is(owner1, t, Table(d, v / 1024)) && t < |mem1| && IsTable(mem1[t])
    ensures Lookup(SetEntry(mem1, t, v % 1024, p), e, x) == if e == d && x == v then p else Lookup(mem0, e, x)
  {
    hide Owned, Lookup;
    Sizes(mem0, owner0, lo);
    Sizes(mem1, owner1, lo);
    assert Is(owner1, e, Dir);
    if 0 <= x < 0x10_0000 {
      WalkLookup(mem0, owner0, free0, mem1, owner1, free1, lo, d, v, t, e, x);
      SetEntryLookup(mem1, owner1, lo, t, v % 1024, p, e, x);
    } else {
      NoPage(SetEntry(mem1, t, v % 1024, p), e, x);
      NoPage(mem0, e, x);
    }
  }

  /** The same for the owners, the directory and the free list. */
  lemma MapOneOwner(mem0: Mem, owner0: Owner, free0: seq<int>, mem1: Mem, owner1: Owner, free1: seq<int>, lo: int,
                    d: int, v: int, t: int, pa: int, p: Pte)
    requires Owned(mem0, owner0, lo) && Is(owner0, d, Dir)
    requires Walked(mem0, owner0, free0, mem1, owner1, free1, d, v, t)
    requires Is(owner1, t, Table(d, v / 1024)) && t < |mem1| && IsTable(mem1[t])
    requires v < KERNEL ==> Is(owner0, pa, Held)
    ensures 0 <= d < |mem0| == |mem1| == |owner1| && IsTable(mem0[d]) && 0 <= v < 0x10_0000
    ensures var mem, owner := SetEntry(mem1, t, v % 1024, p), if v < KERNEL then owner1[pa := User(d, v)] else owner1;
            && IsTable(mem[d]) && Touched(mem0[d].pte, mem[d].pte, v, v + 1)
            && Grew(mem0, owner0, mem, owner, d, v, 1, pa)
    ensures Tables(mem0[d].pte, v, v + 1) <= |free0| && free1 == free0[Tables(mem0[d].pte, v, v + 1)..]
  {
    hide Owned, Lookup, Touched, Tables;
    Sizes(mem0, owner0, lo);
    WalkState(mem0, owner0, free0, mem1, owner1, free1, lo, d, v, t);
  }

  /** The mapping of one page, as the memory and the owners see it. */
  lemma MapOneState(mem0: Mem, owner0: Owner, free0: seq<int>, mem1: Mem, owner1: Owner, free1: seq<int>, lo: int,
                    d: int, v: int, t: int, pa: int, w: bool, u: bool)
    requires Owned(mem0, owner0, lo) && Owned(mem1, owner1, lo) && Is(owner0, d, Dir)
    requires Walked(mem0, owner0, free0, mem1, owner1, free1, d, v, t)
    requires Is(owner1, t, Table(d, v / 1024)) && t < |mem1| && IsTable(mem1[t])
    requires v < KERNEL ==> Is(owner0, pa, Held)
    ensures 0 <= v < 0x10_0000 && |mem1| == |owner1|
    ensures var owner := if v < KERNEL then owner1[pa := User(d, v)] else owner1;
            MapState(mem0, owner0, free0, SetEntry(mem1, t, v % 1024, Present(pa, w, u)), owner, free1, d, v, 1, pa, w, u)
  {
    hide Owned, Lookup, Walked, Grew, Touched, Tables;
    var p := Present(pa, w, u);
    MapOneOwner(mem0, owner0, free0, mem1, owner1, free1, lo, d, v, t, pa, p);
    var mem := SetEntry(mem1, t, v % 1024, p);
    forall e, x | Is(owner0, e, Dir)
      ensures Lookup(mem, e, x) == if e == d && x == v then p else Lookup(mem0, e, x)
    {
      MapOneLookup(mem0, owner0, free0, mem1, owner1, free1, lo, d, v, t, p, e, x);
    }
  }

  lemma NoPage(mem: Mem, d: int, x: int)
    requires !(0 <= x < 0x10_0000)
    ensures Lookup(mem, d, x) == Absent
  {
  }

  // ----- what unmapping does -----

  /** User page v of d, with v in first..a. */
  predicate UserIn(r: Role, d: int, first: int, a: int) {
    r.User? && r.d == d && first <= r.v < a
  }

  /** Pages first..a are gone from d's map and their frames are free; nothing else has changed. */
  ghost predicate DropState(mem0: Mem, owner0: Owner, mem: Mem, owner: Owner, d: int, first: int, a: int) {
    && |mem0| == |mem| == |owner0| == |owner| && 0 <= d < |mem| && mem[d] == mem0[d]
    && (forall x :: 0 <= x < 0x10_0000 ==> Lookup(mem, d, x) == if first <= x < a then Absent else Lookup(mem0, d, x))
    && OthersSame(mem0, owner0, mem, d)
    && (forall f :: 0 <= f < |owner| ==> owner[f] == if UserIn(owner0[f], d, first, a) then Free else owner0[f])
    && (forall f :: 0 <= f < |mem| ==>
          UserIn(owner0[f], d, first, a) || (owner0[f].Table? && owner0[f].d == d) || mem[f] == mem0[f])
  }

  lemma DropStep(mem0: Mem, owner0: Owner, mem1: Mem, owner1: Owner, mem: Mem, owner: Owner, d: int, first: int, a: int, b: int)
    requires DropState(mem0, owner0, mem1, owner1, d, first, a) && DropState(mem1, owner1, mem, owner, d, a, b)
    requires first <= a <= b
    ensures DropState(mem0, owner0, mem, owner, d, first, b)
  {
    hide Lookup;
    forall e, x | Is(owner0, e, Dir) && e != d
      ensures Lookup(mem, e, x) == Lookup(mem0, e, x)
    {
      assert Is(owner1, e, Dir);
      assert Lookup(mem, e, x) == Lookup(mem1, e, x);
    }
  }

  /** Where d has no page there is nothing to drop. */
  lemma DropNothing(mem: Mem, owner: Owner, lo: int, d: int, first: int, a: int)
    requires Owned(mem, owner, lo) && Is(owner, d, Dir)
    requires forall x :: first <= x < a ==> Lookup(mem, d, x).Absent?
    ensures DropState(mem, owner, mem, owner, d, first, a)
  {
    hide Lookup;
    forall f | 0 <= f < |owner|
      ensures !UserIn(owner[f], d, first, a)
    {
      assert FrameOk(mem, owner, f);
    }
  }

  /** DropNothing with the range beyond the end of the request taken off again. */
  lemma DropLess(mem0: Mem, owner0: Owner, mem: Mem, owner: Owner, lo: int, d: int, first: int, a: int, b: int)
    requires Owned(mem0, owner0, lo) && DropState(mem0, owner0, mem, owner, d, first, b) && first <= a <= b
    requires forall x :: a <= x < b ==> Lookup(mem0, d, x).Absent?
    ensures DropState(mem0, owner0, mem, owner, d, first, a)
  {
    hide Lookup;
    forall f | 0 <= f < |owner0|
      ensures !UserIn(owner0[f], d, a, b)
    {
      assert FrameOk(mem0, owner0, f);
    }
  }

  lemma DropOneState(mem: Mem, owner: Owner, lo: int, d: int, v: int, t: int, p: Page)
    requires Owned(mem, owner, lo) && Is(owner, d, Dir) && 0 <= v < KERNEL
    requires Is(owner, t, Table(d, v / 1024)) && IsTable(mem[t]) && t != d && mem[t].pte[v % 1024].Present?
    ensures var f := mem[t].pte[v % 1024].frame;
            && lo <= f < PHYSTOP && Is(owner, f, User(d, v)) && f != t
            && Owned(SetEntry(mem[f := p], t, v % 1024, Absent), owner[f := Free], lo)
            && DropState(mem, owner, SetEntry(mem[f := p], t, v % 1024, Absent), owner[f := Free], d, v, v + 1)
  {
    hide Owned, Lookup;
    var j := v % 1024;
    Sizes(mem, owner, lo);
    DropUser(mem, owner, lo, t, j, p);
    var f := mem[t].pte[j].frame;
    var mem' := SetEntry(mem[f := p], t, j, Absent);
    forall e, x | Is(owner, e, Dir)
      ensures Lookup(mem', e, x) == if e == d && x == v then Absent else Lookup(mem, e, x)
    {
      if 0 <= x < 0x10_0000 {
        SetEntryLookup(mem, owner, lo, t, j, Absent, e, x);
        DropKept(mem, owner, lo, t, j, p, e, x);
      } else {
        NoPage(mem', e, x);
        NoPage(mem, e, x);
      }
    }
    forall g | 0 <= g < |owner|
      ensures UserIn(owner[g], d, v, v + 1) <==> g == f
    {
      if UserIn(owner[g], d, v, v + 1) {
        SameUser(mem, owner, lo, f, g);
      }
    }
  }

  lemma DropKept(mem: Mem, owner: Owner, lo: int, t: int, j: int, p: Page, e: int, x: int)
    requires Owned(mem, owner, lo) && Is(owner, e, Dir)
    requires 0 <= t < PHYSTOP && owner[t].Table? && 0 <= j < 1024 && IsTable(mem[t])
    requires mem[t].pte[j].Present? && 0 <= mem[t].pte[j].frame < PHYSTOP && owner[mem[t].pte[j].frame].User?
    ensures Lookup(SetEntry(mem[mem[t].pte[j].frame := p], t, j, Absent), e, x) == Lookup(SetEntry(mem, t, j, Absent), e, x)
  {
    assert FrameOk(mem, owner, e);
  }

  lemma SameUser(mem: Mem, owner: Owner, lo: int, f: int, g: int)
    requires Owned(mem, owner, lo) && 0 <= f < PHYSTOP && 0 <= g < PHYSTOP && owner[f].User? && owner[f] == owner[g]
    ensures f == g
  {
    assert FrameOk(mem, owner, f);
    assert FrameOk(mem, owner, g);
  }

  lemma NoTable(mem: Mem, d: int, i: int)
    requires 0 <= d < |mem| && IsTable(mem[d]) && 0 <= i < 1024 && mem[d].pte[i].Absent?
    ensures forall x :: 1024 * i <= x < 1024 * i + 1024 ==> Lookup(mem, d, x).Absent?
  {
  }

  // ----- the free list -----

  lemma FreePop(free: seq<int>, owner: Owner)
    requires FreeList(free, owner) && free != []
    ensures Is(owner, free[0], Free) && FreeList(free[1..], owner[free[0] := Held])
  {
    var rest, owner' := free[1..], owner[free[0] := Held];
    forall f | Is(owner', f, Free)
      ensures f in rest
    {
      assert Is(owner, f, Free);
      var i :| 0 <= i < |free| && free[i] == f;
      assert rest[i - 1] == f;
    }
  }

  /** A free frame linked in again is on the list twice. */
  lemma TwiceFree(free: seq<int>, owner: Owner, f: int)
    requires FreeList(free, owner) && Is(owner, f, Free)
    ensures !FreeList([f] + free, owner[f := Free])
  {
    var i :| 0 <= i < |free| && free[i] == f;
    var l := [f] + free;
    assert l[0] == l[i + 1];
  }

  lemma FreePush(free: seq<int>, owner: Owner, f: int)
    requires FreeList(free, owner) && 0 <= f < |owner| && owner[f] != Free
    ensures FreeList([f] + free, owner[f := Free])
  {
    var free', owner' := [f] + free, owner[f := Free];
    forall g | Is(owner', g, Free)
      ensures g in free'
    {
      if g == f {
        assert free'[0] == g;
      } else {
        assert Is(owner, g, Free);
        var i :| 0 <= i < |free| && free[i] == g;
        assert free'[i + 1] == g;
      }
    }
  }

  lemma FreeKeep(free: seq<int>, owner: Owner, f: int, r: Role)
    requires FreeList(free, owner) && 0 <= f < |owner| && owner[f] != Free && r != Free
    ensures FreeList(free, owner[f := r])
  {
    forall g | Is(owner[f := r], g, Free)
      ensures g in free
    {
      assert Is(owner, g, Free);
    }
  }

  /** The free list, up to order, is a matter of ownership alone. */
  lemma FreeOnce(free: seq<int>, owner: Owner)
    requires FreeList(free, owner)
    ensures forall f :: multiset(free)[f] == if Is(owner, f, Free) then 1 else 0
  {
    forall f
      ensures multiset(free)[f] == if Is(owner, f, Free) then 1 else 0
    {
      Occurs(free, f);
    }
  }

  lemma {:induction false} Occurs(s: seq<int>, f: int)
    requires forall i, j :: 0 <= i < j < |s| ==> s[i] != s[j]
    ensures multiset(s)[f] == if f in s then 1 else 0
  {
    if s != [] {
      var t, n := s[..|s| - 1], |s| - 1;
      assert s == t + [s[n]];
      Occurs(t, f);
      assert s[n] !in t;
    }
  }

  /** If only frame h has left the pool, the free list has lost h alone. */
  lemma SamePool(free0: seq<int>, owner0: Owner, free: seq<int>, owner: Owner, h: int)
    requires FreeList(free0, owner0) && FreeList(free, owner)
    requires h >= 0 ==> Is(owner0, h, Free)
    requires owner == if h < 0 then owner0 else owner0[h := Held]
    ensures multiset(free) == multiset(free0) - (if h < 0 then multiset{} else multiset{h})
  {
    FreeOnce(free0, owner0);
    FreeOnce(free, owner);
  }

  lemma RestoredPool(mem0: Mem, owner0: Owner, free0: seq<int>, mem: Mem, owner: Owner, free: seq<int>, h: int)
    requires Restored(mem0, owner0, mem, owner, h) && FreeList(free0, owner0) && FreeList(free, owner)
    ensures multiset(free) == multiset(free0) - (if h < 0 then multiset{} else multiset{h})
  {
    SamePool(free0, owner0, free, owner, h);
  }

  /** What kfree's memset leaves. */
  function Junk(): (p: Page)
    ensures p.Bytes? && |p.data| == 4096 && forall j :: 0 <= j < 4096 ==> p.data[j] == 1
  {
    Bytes(seq(4096, _ => 1))
  }

  function ZeroPage(): (p: Page)
    ensures p.Bytes? && |p.data| == 4096 && forall j :: 0 <= j < 4096 ==> p.data[j] == 0
  {
    Bytes(seq(4096, _ => 0))
  }

  /** Frames pa..pa+n are held pages, which a user mapping may take over. */
  ghost predicate Spare(mem: Mem, owner: Owner, pa: int, n: int)
    requires |mem| == |owner|
  {
    forall f :: pa <= f < pa + n ==> Is(owner, f, Held) && mem[f].Bytes?
  }

  datatype MapResult = Mapped | NoMemory | Remap

  class Memory {
    var mem: Mem
    var free: seq<int>
    const lo: int
    const data: int
    ghost var owner: Owner

    ghost predicate Valid()
      reads this
    {
      Owned(mem, owner, lo) && FreeList(free, owner) && 256 < data < PHYSTOP
    }

    /** Memory as kinit finds it: an empty free list, and every frame past the kernel waiting for freerange. */
    constructor (lo: int, data: int)
      requires 0 < lo <= PHYSTOP && 256 < data < PHYSTOP
      ensures Valid() && this.lo == lo && this.data == data && free == []
      ensures forall f :: 0 <= f < PHYSTOP ==> owner[f] == (if f < lo then Reserved else Held) && mem[f].Bytes?
    {
      this.lo, this.data := lo, data;
      free := [];
      mem := seq(PHYSTOP, _ => ZeroPage());
      owner := seq(PHYSTOP, f => if f < lo then Reserved else Held);
    }

    method Kalloc() returns (r: Option<int>)
      requires Valid()
      modifies this`free, this`owner
      ensures Valid()
      ensures r.None? ==> old(free) == [] && free == old(free) && owner == old(owner)
      ensures r.Some? ==>
        && old(free) != [] && r.value == old(free)[0] && free == old(free)[1..]
        && Is(old(owner), r.value, Free) && owner == old(owner)[r.value := Held]
    {
      hide Owned, FreeList;
      if free == [] {
        return None;
      }
      var f := free[0];
      FreePop(free, owner);
      FrameRange(mem, owner, lo, f);
      Loose(mem, owner, lo, f, mem[f], Held);
      assert mem[f := mem[f]] == mem;
      free := free[1..];
      owner := owner[f := Held];
      return Some(f);
    }

    /**
    kfree panics on a frame outside the pool and links any other in, whoever has it: freeing a held
    frame keeps the memory sound, freeing a free one does not.
    */
    method Kfree(f: int) returns (ok: bool)
      requires |mem| == |owner| == PHYSTOP && 0 < lo
      modifies this`mem, this`free, this`owner
      ensures ok <==> lo <= f < PHYSTOP
      ensures !ok ==> mem == old(mem) && free == old(free) && owner == old(owner)
      ensures ok ==> mem == old(mem)[f := Junk()] && free == [f] + old(free) && owner == old(owner)[f := Free]
      ensures old(Valid()) && (ok ==> old(owner)[f] == Held) ==> Valid()
      ensures old(Valid()) && ok && old(owner)[f] == Free ==> !Valid()
    {
      hide Owned;
      if f < lo || f >= PHYSTOP {
        return false;
      }
      if old(Valid()) && owner[f] == Held {
        FreePush(free, owner, f);
        Loose(mem, owner, lo, f, Junk(), Free);
      }
      if old(Valid()) && owner[f] == Free {
        TwiceFree(free, owner, f);
      }
      mem := mem[f := Junk()];
      free := [f] + free;
      owner := owner[f := Free];
      return true;
    }

    /** freerange: the whole frames between two addresses enter the pool; panics on one outside it. */
    method FreeRange(start: int, end: int) returns (ok: bool)
      requires |mem| == |owner| == PHYSTOP && 0 < lo && 0 <= start
      modifies this`mem, this`free, this`owner
      ensures ok <==> (start + 4095) / 4096 >= end / 4096 || (lo <= (start + 4095) / 4096 && end / 4096 <= PHYSTOP)
      ensures |owner| == PHYSTOP == |mem|
      ensures ok ==> forall f :: 0 <= f < PHYSTOP ==>
        && owner[f] == (if (start + 4095) / 4096 <= f < end / 4096 then Free else old(owner)[f])
        && mem[f] == (if (start + 4095) / 4096 <= f < end / 4096 then Junk() else old(mem)[f])
      // the frame freed last comes first
      ensures ok && (start + 4095) / 4096 < end / 4096 ==>
        var n := end / 4096 - (start + 4095) / 4096;
        |free| == n + |old(free)| && free[n..] == old(free) && forall k :: 0 <= k < n ==> free[k] == end / 4096 - 1 - k
      ensures (start + 4095) / 4096 >= end / 4096 ==> free == old(free)
      ensures
        && old(Valid())
        && (forall f :: (start + 4095) / 4096 <= f < end / 4096 && lo <= f < PHYSTOP ==> old(owner)[f] == Held)
        ==> Valid()
    {
      hide Owned, FreeList;
      var first := (start + 4095) / 4096;
      var p := first;
      while (p + 1) * 4096 <= end
        invariant first <= p && |mem| == |owner| == PHYSTOP
        invariant first < p ==> lo <= first && p <= PHYSTOP && p <= end / 4096
        invariant forall f :: 0 <= f < PHYSTOP ==> owner[f] == if first <= f < p then Free else old(owner)[f]
        invariant forall f :: 0 <= f < PHYSTOP ==> mem[f] == if first <= f < p then Junk() else old(mem)[f]
        invariant |free| == p - first + |old(free)| && free[p - first..] == old(free)
        invariant forall k :: 0 <= k < p - first ==> free[k] == p - 1 - k
        invariant
          && old(Valid())
          && (forall f :: first <= f < end / 4096 && lo <= f < PHYSTOP ==> old(owner)[f] == Held)
          ==> Valid()
        decreases end / 4096 - p
      {
        ok := Kfree(p);
        if !ok {
          return;
        }
        p := p + 1;
      }
      return true;
    }

    /** walkpgdir: the frame of the table that holds the entry for page v, if there is or can be one. */
    method Walk(d: int, v: int, alloc: bool) returns (r: Option<int>)
      requires Valid() && Is(owner, d, Dir) && 0 <= v < 0x10_0000
      modifies this`mem, this`free, this`owner
      ensures Valid() && IsTable(old(mem)[d])
      ensures r.None? ==>
        && mem == old(mem) && free == old(free) && owner == old(owner)
        && mem[d].pte[v / 1024].Absent? && (alloc ==> free == [])
      ensures r.Some? ==> Is(owner, r.value, Table(d, v / 1024)) && IsTable(mem[r.value]) && r.value != d
      ensures r.Some? && old(mem)[d].pte[v / 1024].Present? ==>
        && mem == old(mem) && free == old(free) && owner == old(owner)
        && mem[d].pte[v / 1024].frame == r.value
      ensures r.Some? && old(mem)[d].pte[v / 1024].Absent? ==>
        && alloc && old(free) != [] && free == old(free)[1..]
        && Is(old(owner), r.value, Free) && owner == old(owner)[r.value := Table(d, v / 1024)]
        && mem == WithTable(old(mem), d, v / 1024, r.value)
    {
      hide Owned, FreeList;
      DirFacts(mem, owner, lo, d);
      var i := v / 1024;
      if mem[d].pte[i].Present? {
        return Some(mem[d].pte[i].frame);
      }
      if !alloc {
        return None;
      }
      r := Kalloc();
      if r.Some? {
        var t := r.value;
        Sizes(mem, owner, lo);
        AddTable(mem, owner, lo, d, i, t);
        FreeKeep(free, owner, t, Table(d, i));
        mem := WithTable(mem, d, i, t);
        owner := owner[t := Table(d, i)];
      }
    }

    /** One turn of the loop in mappages. */
    method MapOne(d: int, v: int, pa: int, w: bool, u: bool) returns (r: MapResult)
      requires Valid() && Is(owner, d, Dir) && 0 <= v < 0x10_0000
      requires v < KERNEL ==> Is(owner, pa, Held) && mem[pa].Bytes?
      modifies this`mem, this`free, this`owner
      ensures Valid() && IsTable(old(mem)[d])
      ensures r != Mapped ==> mem == old(mem) && free == old(free) && owner == old(owner)
      ensures r == NoMemory <==> old(free) == [] && old(mem)[d].pte[v / 1024].Absent?
      ensures r == Remap <==> Lookup(old(mem), d, v).Present?
      ensures r == Mapped ==>
        MapState(old(mem), old(owner), old(free), mem, owner, free, d, v, 1, pa, w, u)
    {
      hide Owned, FreeList, MapState;
      DirFacts(mem, owner, lo, d);
      ghost var mem0, owner0, free0 := mem, owner, free;
      var t := Walk(d, v, true);
      if t.None? {
        return NoMemory;
      }
      Sizes(mem, owner, lo);
      if mem[t.value].pte[v % 1024].Present? {
        return Remap;
      }
      assert Walked(mem0, owner0, free0, mem, owner, free, d, v, t.value);
      MapOneState(mem0, owner0, free0, mem, owner, free, lo, d, v, t.value, pa, w, u);
      if v < KERNEL {
        PutUser(mem, owner, lo, t.value, v % 1024, pa, w, u);
        FreeKeep(free, owner, pa, User(d, v));
      } else {
        PutKernel(mem, owner, lo, t.value, v % 1024, Present(pa, w, u));
      }
      mem := SetEntry(mem, t.value, v % 1024, Present(pa, w, u));
      if v < KERNEL {
        owner := owner[pa := User(d, v)];
      }
      return Mapped;
    }

    /**
    mappages: done is how many pages were mapped.  With the range clear and enough frames for the
    missing tables all of them are; otherwise it stops at the first page that has no table to be had
    or is mapped already.
    */
    method MapPages(d: int, va: int, size: int, pa: int, w: bool, u: bool) returns (r: MapResult, ghost done: int)
      requires Valid() && Is(owner, d, Dir)
      requires 0 <= va && 0 < size && va + size <= 0x1_0000_0000
      requires Spare(mem, owner, pa, if va + size <= 0x8000_0000 then (va + size - 1) / 4096 + 1 - va / 4096 else KERNEL - va / 4096)
      modifies this`mem, this`free, this`owner
      ensures Valid()
      ensures MapState(old(mem), old(owner), old(free), mem, owner, free, d, va / 4096, done, pa, w, u)
      ensures var n := (va + size - 1) / 4096 - va / 4096 + 1;
              0 <= done <= n && (r == Mapped <==> done == n)
      ensures done == 0 ==> mem == old(mem) && owner == old(owner) && free == old(free)
      ensures r == NoMemory ==> free == [] && mem[d].pte[(va / 4096 + done) / 1024].Absent?
      ensures r == Remap ==> Lookup(old(mem), d, va / 4096 + done).Present?
    {
      hide Owned, FreeList, MapState;
      ghost var mem0, owner0, free0 := mem, owner, free;
      var first, last := va / 4096, (va + size - 1) / 4096;
      var a, f := first, pa;
      DirFacts(mem, owner, lo, d);
      MapStart(mem, owner, free, d, first, pa, w, u);
      while true
        invariant first <= a <= last < 0x10_0000 && f == pa + a - first
        invariant Valid() && Is(owner, d, Dir)
        invariant MapState(mem0, owner0, free0, mem, owner, free, d, first, a - first, pa, w, u)
        invariant a == first ==> mem == mem0 && owner == owner0 && free == free0
        decreases last - a
      {
        if a < KERNEL {
          HeldStill(mem0, owner0, free0, mem, owner, free, d, first, a, pa, w, u);
        }
        ghost var mem1, owner1, free1 := mem, owner, free;
        r := MapOne(d, a, f, w, u);
        if r != Mapped {
          done := a - first;
          SameLookup(mem0, owner0, free0, mem, owner, free, d, first, done, pa, w, u, a);
          return;
        }
        MapStep(mem0, owner0, free0, mem1, owner1, free1, mem, owner, free, d, first, a - first, pa, w, u);
        DirKept(mem1, owner1, free1, mem, owner, free, d, a, 1, f, w, u);
        if a == last {
          break;
        }
        a := a + 1;
        f := f + 1;
      }
      return Mapped, last - first + 1;
    }

    /** One turn of the loop in deallocuvm: drop page a, or skip the 4MB that have no table. */
    method DropOne(d: int, a: int) returns (b: int)
      requires Valid() && Is(owner, d, Dir) && 0 <= a < KERNEL
      modifies this`mem, this`free, this`owner
      ensures Valid() && a < b <= KERNEL
      ensures DropState(old(mem), old(owner), mem, owner, d, a, b)
      ensures forall x :: a < x < b ==> Lookup(old(mem), d, x).Absent?
    {
      hide Owned, FreeList, DropState, Lookup;
      DirFacts(mem, owner, lo, d);
      var t := Walk(d, a, false);
      if t.None? {
        b := (a / 1024 + 1) * 1024;
        NoTable(mem, d, a / 1024);
        DropNothing(mem, owner, lo, d, a, b);
        return;
      }
      b := a + 1;
      var e := mem[t.value].pte[a % 1024];
      if e.Absent? {
        LookupIn(mem, d, a, t.value);
        DropNothing(mem, owner, lo, d, a, b);
        return;
      }
      DropOneState(mem, owner, lo, d, a, t.value, Junk());
      FreePush(free, owner, e.frame);
      mem := mem[e.frame := Junk()];
      free := [e.frame] + free;
      mem := SetEntry(mem, t.value, a % 1024, Absent);
      owner := owner[e.frame := Free];
    }

    /** deallocuvm: exactly the pages from newsz (rounded up) to oldsz are unmapped and their frames freed. */
    method DeallocUvm(d: int, oldsz: int, newsz: int) returns (sz: int)
      requires Valid() && Is(owner, d, Dir) && 0 <= newsz && 0 <= oldsz <= 0x8000_0000
      modifies this`mem, this`free, this`owner
      ensures Valid() && sz == if newsz < oldsz then newsz else oldsz
      ensures DropState(old(mem), old(owner), mem, owner, d, (newsz + 4095) / 4096, (oldsz + 4095) / 4096)
    {
      hide Owned, FreeList, DropState, Lookup;
      ghost var mem0, owner0 := mem, owner;
      ghost var end := (oldsz + 4095) / 4096;
      Sizes(mem, owner, lo);
      if newsz >= oldsz {
        DropNothing(mem, owner, lo, d, (newsz + 4095) / 4096, end);
        return oldsz;
      }
      var first := (newsz + 4095) / 4096;
      var a := first;
      DropNothing(mem, owner, lo, d, first, first);
      while a * 4096 < oldsz
        invariant first <= a <= KERNEL && Valid() && Is(owner, d, Dir)
        invariant DropState(mem0, owner0, mem, owner, d, first, a)
        invariant forall x :: end <= x < a ==> Lookup(mem0, d, x).Absent?
        decreases KERNEL - a
      {
        ghost var mem1, owner1 := mem, owner;
        var b := DropOne(d, a);
        DropStep(mem0, owner0, mem1, owner1, mem, owner, d, first, a, b);
        DropDir(mem0, owner0, mem, owner, d, first, b);
        DropAbove(mem0, owner0, mem1, owner1, d, first, a);
        a := b;
      }
      DropLess(mem0, owner0, mem, owner, lo, d, first, end, a);
      return newsz;
    }

    /** freevm: the frames of address space d, all of them and no others, return to the pool. */
    method FreeVm(d: int)
      requires Valid() && Is(owner, d, Dir)
      modifies this`mem, this`free, this`owner
      ensures Valid() && GoneState(old(mem), old(owner), mem, owner, d)
    {
      hide Owned, FreeList, DropState, Lookup, Dissolved, GoneState, Parted;
      ghost var mem0, owner0 := mem, owner;
      var _ := DeallocUvm(d, 0x8000_0000, 0);
      ghost var mem1, owner1 := mem, owner;
      DropDir(mem0, owner0, mem1, owner1, d, 0, KERNEL);
      DirFacts(mem1, owner1, lo, d);
      NoUsers(mem0, owner0, mem1, owner1, lo, d);
      Dissolve(mem1, owner1, lo, d);
      DissolvedFree(free, owner1, d);
      owner := Dissolved(owner1, d);
      PartedStart(mem1, owner1, lo, d);
      var i := 0;
      while i < 1024
        invariant 0 <= i <= 1024 && Valid()
        invariant Parted(mem1, owner1, mem, owner, d, i)
      {
        PartedEntry(mem1, owner1, mem, owner, lo, d, i);
        Sizes(mem, owner, lo);
        ghost var mem2, owner2 := mem, owner;
        var e := mem[d].pte[i];
        if e.Present? {
          var ok := Kfree(e.frame);
        }
        PartedStep(mem1, owner1, mem2, owner2, mem, owner, lo, d, i);
        i := i + 1;
      }
      PartedHeld(mem1, owner1, mem, owner, lo, d);
      ghost var mem2, owner2 := mem, owner;
      Sizes(mem, owner, lo);
      var ok := Kfree(d);
      PartedAll(mem0, owner0, mem1, owner1, mem2, owner2, mem, owner, lo, d);
    }

    /** One turn of the loop in setupkvm, over the k-th line of kmap. */
    method KernRegion(d: int, k: int, ghost mem0: Mem, ghost owner0: Owner, ghost free0: seq<int>) returns (ok: bool)
      requires Valid() && 0 <= k < 4 && Owned(mem0, owner0, lo)
      requires KernState(mem0, owner0, free0, mem, owner, free, d, k, data)
      modifies this`mem, this`free, this`owner
      ensures Valid()
      ensures ok ==> KernState(mem0, owner0, free0, mem, owner, free, d, k + 1, data)
      ensures !ok ==> Private(mem0, owner0, mem, owner, d, -1) && Is(owner, d, Dir) && |free0| < 65
    {
      hide Owned, FreeList, MapState, KernState, Private, Lookup;
      ghost var mem1, owner1, free1 := mem, owner, free;
      var m := Kmaps(data)[k];
      var size := (m.end - m.start) % 0x1_0000_0000;
      KernDir(mem0, owner0, free0, mem, owner, free, d, k, data);
      RegionShape(data, k);
      Sizes(mem, owner, lo);
      var r, done := MapPages(d, m.virt, size, m.start / 4096, m.w, false);
      KernPrivate(mem0, owner0, free0, mem1, owner1, free1, mem, owner, free, lo, d, k, done, data);
      if r == Mapped {
        KernStep(mem0, owner0, free0, mem1, owner1, free1, mem, owner, free, d, k, data);
        return true;
      }
      KernClear(mem0, owner0, free0, mem1, owner1, free1, d, k, data, First(data, k) + done);
      KernShort(mem0, owner0, free0, mem1, owner1, free1, mem, owner, free, d, k, done, data);
      return false;
    }

    /** setupkvm: a directory with exactly the kernel's mappings if 65 frames are free, and no change otherwise. */
    method SetupKvm() returns (r: Option<int>)
      requires Valid()
      modifies this`mem, this`free, this`owner
      ensures Valid()
      ensures r.Some? <==> |old(free)| >= 65
      ensures r.Some? ==> KernState(old(mem), old(owner), old(free), mem, owner, free, r.value, 4, data)
      // physical memory from KERNBASE up, read-only from 1 MB to data, the devices at their own addresses, nothing for users
      ensures r.Some? ==> forall x {:trigger Lookup(mem, r.value, x)} :: 0 <= x < 0x10_0000 ==>
        var e := Lookup(mem, r.value, x);
        && (e.Present? <==> 0x8_0000 <= x < 0x8_E000 || 0xF_E000 <= x)
        && (e.Present? ==>
              && !e.u && (e.w <==> !(0x8_0100 <= x < 0x8_0000 + data))
              && e.frame == if x < 0xF_E000 then x - 0x8_0000 else x)
      ensures r.None? ==> Restored(old(mem), old(owner), mem, owner, -1) && multiset(free) == multiset(old(free))
    {
      hide Owned, FreeList, KernState, Private, Restored, Lookup, GoneState;
      ghost var mem0, owner0, free0 := mem, owner, free;
      Sizes(mem, owner, lo);
      r := Kalloc();
      if r.None? {
        RestoredSelf(mem, owner);
        return;
      }
      var d := r.value;
      FrameRange(mem, owner, lo, d);
      Loose(mem, owner, lo, d, Entries(ZeroEntries()), Dir);
      FreeKeep(free, owner, d, Dir);
      mem := mem[d := Entries(ZeroEntries())];
      owner := owner[d := Dir];
      KernStart(mem0, owner0, free0, mem, owner, free, lo, d, data);
      var k := 0;
      while k < 4
        invariant 0 <= k <= 4 && Valid()
        invariant KernState(mem0, owner0, free0, mem, owner, free, d, k, data)
      {
        var ok := KernRegion(d, k, mem0, owner0, free0);
        if !ok {
          ghost var mem1, owner1 := mem, owner;
          FreeVm(d);
          PrivateGone(mem0, owner0, mem1, owner1, mem, owner, lo, d, -1);
          RestoredPool(mem0, owner0, free0, mem, owner, free, -1);
          return None;
        }
        k := k + 1;
      }
      KernDir(mem0, owner0, free0, mem, owner, free, d, 4, data);
      KernWhole(mem0, owner0, free0, mem, owner, free, d, data);
    }

    /** One turn of the loop in allocuvm; page is the frame left in hand when mappages fails. */
    method AllocOne(d: int, v: int) returns (ok: bool, page: Option<int>)
      requires Valid() && Is(owner, d, Dir) && 0 <= v < KERNEL && Lookup(mem, d, v).Absent?
      modifies this`mem, this`free, this`owner
      ensures Valid() && IsTable(old(mem)[d])
      ensures ok ==> page.None? && AllocState(old(mem), old(owner), old(free), mem, owner, free, d, v, 1)
      ensures !ok && page.None? ==> mem == old(mem) && owner == old(owner) && free == old(free) == []
      ensures !ok && page.Some? ==>
        && |old(free)| == 1 && old(mem)[d].pte[v / 1024].Absent? && Is(old(owner), page.value, Free)
        && mem == old(mem)[page.value := ZeroPage()] && owner == old(owner)[page.value := Held]
    {
      hide Owned, FreeList, MapState, AllocState, Lookup;
      ghost var mem0, owner0, free0 := mem, owner, free;
      DirFacts(mem, owner, lo, d);
      var f := Kalloc();
      if f.None? {
        return false, None;
      }
      FrameRange(mem, owner, lo, f.value);
      Loose(mem, owner, lo, f.value, ZeroPage(), Held);
      assert owner[f.value := Held] == owner;
      mem := mem[f.value := ZeroPage()];
      ghost var mem1, owner1, free1 := mem, owner, free;
      LooseAll(mem0, owner0, lo, f.value, ZeroPage());
      var r, done := MapPages(d, v * 4096, 4096, f.value, true, true);
      if r != Mapped {
        return false, f;
      }
      AllocOneState(mem0, owner0, free0, mem1, owner1, free1, mem, owner, free, lo, d, v, f.value);
      return true, None;
    }

    /**
    allocuvm: fresh zeroed pages from oldsz (rounded up) to newsz when there are frames for them and
    for the missing tables; otherwise 0, with every map as it was and every user frame back in the pool.
    */
    method AllocUvm(d: int, oldsz: int, newsz: int) returns (sz: int)
      requires Valid() && Is(owner, d, Dir) && 0 <= oldsz && 0 <= newsz < 0x1_0000_0000
      requires forall x :: (oldsz + 4095) / 4096 <= x < (newsz + 4095) / 4096 ==> Lookup(mem, d, x).Absent?
      modifies this`mem, this`free, this`owner
      ensures Valid() && IsTable(old(mem)[d])
      ensures newsz >= 0x8000_0000 ==> sz == 0 && mem == old(mem) && owner == old(owner) && free == old(free)
      ensures newsz < 0x8000_0000 && newsz < oldsz ==> sz == oldsz && mem == old(mem) && owner == old(owner) && free == old(free)
      ensures oldsz <= newsz < 0x8000_0000 ==>
        var first, end := (oldsz + 4095) / 4096, (newsz + 4095) / 4096;
        if end - first + Tables(old(mem)[d].pte, first, end) <= |old(free)|
        then
          && sz == newsz && AllocState(old(mem), old(owner), old(free), mem, owner, free, d, first, end - first)
          && (forall b :: 0 <= b < 0x8000_0000 ==>
                UserByte(mem, d, b) == if first <= b / 4096 < end then Some(0) else UserByte(old(mem), d, b))
        else sz == 0 && Undone(old(mem), old(owner), mem, owner, d)
    {
      hide Owned, FreeList, AllocState, DropState, Undone, Lookup, Tables, UserByte;
      DirFacts(mem, owner, lo, d);
      if newsz >= 0x8000_0000 {
        return 0;
      }
      if newsz < oldsz {
        return oldsz;
      }
      ghost var mem0, owner0, free0 := mem, owner, free;
      var first := (oldsz + 4095) / 4096;
      ghost var end := (newsz + 4095) / 4096;
      var a := first;
      AllocStart(mem, owner, free, d, first);
      while a * 4096 < newsz
        invariant first <= a <= end <= KERNEL && Valid()
        invariant AllocState(mem0, owner0, free0, mem, owner, free, d, first, a - first)
      {
        ghost var mem1, owner1, free1 := mem, owner, free;
        AllocDir(mem0, owner0, free0, mem, owner, free, d, first, a - first, a);
        var ok, page := AllocOne(d, a);
        if !ok {
          AllocShort(mem0, owner0, free0, mem1, owner1, free1, d, first, a, end, page.Some?);
          ghost var mem2, owner2 := mem, owner;
          var _ := DeallocUvm(d, newsz, oldsz);
          ghost var mem3, owner3 := mem, owner;
          if page.Some? {
            StillHeld(mem2, owner2, mem3, owner3, lo, d, first, end, page.value);
            Sizes(mem, owner, lo);
            var _ := Kfree(page.value);
          }
          UndoAlloc(mem0, owner0, free0, mem1, owner1, free1, mem2, owner2, mem3, owner3, mem, owner, lo, d, first, a, end, page);
          return 0;
        }
        AllocStep(mem0, owner0, free0, mem1, owner1, free1, mem, owner, free, lo, d, first, a - first);
        a := a + 1;
      }
      AllocEnough(mem0, owner0, free0, mem, owner, free, d, first, a - first);
      forall b | 0 <= b < 0x8000_0000
        ensures UserByte(mem, d, b) == if first <= b / 4096 < end then Some(0) else UserByte(mem0, d, b)
      {
        AllocBytes(mem0, owner0, free0, mem, owner, free, lo, d, first, a - first, b);
      }
      return newsz;
    }

    /** One turn of the loop in copyuvm, for page v of src; lost is the frame in hand when mappages fails. */
    method CopyOne(src: int, d: int, v: int, e: Pte, ghost mem0: Mem, ghost owner0: Owner, ghost free0: seq<int>)
      returns (ok: bool, ghost lost: int)
      requires Valid() && Owned(mem0, owner0, lo) && Is(owner0, src, Dir) && 0 <= v < KERNEL
      requires CopyState(mem0, owner0, free0, mem, owner, free, src, d, v, data)
      requires e == Lookup(mem, src, v) && e.Present?
      modifies this`mem, this`free, this`owner
      ensures Valid()
      ensures ok ==> CopyState(mem0, owner0, free0, mem, owner, free, src, d, v + 1, data)
      ensures !ok ==>
        && Is(owner, d, Dir) && Private(mem0, owner0, mem, owner, d, lost)
        && if lost < 0 then lost == -1 && |free0| == Spent(v)
           else Is(owner, lost, Held) && Is(owner0, lost, Free) && v % 1024 == 0 && |free0| == Spent(v) + 1
    {
      hide Owned, FreeList, MapState, CopyState, Private, Lookup, Spent, KernelPte, IsTable;
      CopyFacts(mem0, owner0, free0, mem, owner, free, src, d, v, data);
      LookupOwner(mem, owner, lo, src, v);
      ghost var mem1, owner1, free1 := mem, owner, free;
      var f := Kalloc();
      if f.None? {
        return false, -1;
      }
      var page := mem[e.frame];
      FrameRange(mem, owner, lo, f.value);
      Loose(mem, owner, lo, f.value, page, Held);
      assert owner[f.value := Held] == owner;
      mem := mem[f.value := page];
      ghost var mem2, owner2, free2 := mem, owner, free;
      LooseAll(mem1, owner1, lo, f.value, page);
      PrivateHold(mem0, owner0, mem1, owner1, lo, d, f.value, page);
      var r, done := MapPages(d, v * 4096, 4096, f.value, e.w, e.u);
      if r != Mapped {
        assert Lookup(mem2, d, v) == Lookup(mem1, d, v);
        assert r == NoMemory && mem1[d] == mem2[d];
        CopyTable(mem0, owner0, free0, mem1, owner1, free1, src, d, v, data);
        return false, f.value;
      }
      PrivateMap(mem0, owner0, mem2, owner2, free2, mem, owner, free, lo, d, f.value, v, 1, f.value, e.w, e.u);
      CopyStep(mem0, owner0, free0, mem1, owner1, free1, mem2, owner2, free2, mem, owner, free, lo, src, d, v, f.value, e, data);
      return true, -1;
    }

    /**
    copyuvm: a new address space with equal bytes and flags on fresh frames.  When memory runs out the
    copy is taken apart again, but the page in hand is lost if it was a table that could not be had.
    */
    method CopyUvm(src: int, sz: int) returns (r: CopyResult, ghost lost: int)
      requires Valid() && Is(owner, src, Dir) && 0 <= sz <= 0x8000_0000
      modifies this`mem, this`free, this`owner
      ensures Valid()
      ensures r.Failed? <==> |old(free)| < Spent(Gap(old(mem), src, (sz + 4095) / 4096))
      ensures r.Copied? <==>
        |old(free)| >= Spent((sz + 4095) / 4096) && Gap(old(mem), src, (sz + 4095) / 4096) == (sz + 4095) / 4096
      ensures r.Copied? ==>
        && CopyState(old(mem), old(owner), old(free), mem, owner, free, src, r.d, (sz + 4095) / 4096, data)
        && forall b {:trigger UserByte(mem, r.d, b)} :: 0 <= b < 0x8000_0000 ==>
             UserByte(mem, r.d, b) == if b / 4096 < (sz + 4095) / 4096 then UserByte(old(mem), src, b) else None
      ensures r.Failed? ==>
        && (lost >= 0 <==> Leaks(|old(free)|, (sz + 4095) / 4096))
        && Restored(old(mem), old(owner), mem, owner, lost)
        && multiset(free) == multiset(old(free)) - (if lost < 0 then multiset{} else multiset{lost})
    {
      hide Owned, FreeList, KernState, CopyState, Private, Restored, Lookup, GoneState, Gap, UserByte;
      ghost var mem0, owner0, free0, n := mem, owner, free, (sz + 4095) / 4096;
      lost := -1;
      var k := SetupKvm();
      if k.None? {
        return Failed, -1;
      }
      var d := k.value;
      CopyStart(mem0, owner0, free0, mem, owner, free, lo, src, d, data);
      var v := 0;
      while v * 4096 < sz
        invariant 0 <= v <= n && Valid()
        invariant CopyState(mem0, owner0, free0, mem, owner, free, src, d, v, data) && v <= Gap(mem0, src, n)
      {
        CopyFacts(mem0, owner0, free0, mem, owner, free, src, d, v, data);
        var e := Entry(src, v);
        if e.Absent? {
          return Stopped, -1;
        }
        var ok;
        ok, lost := CopyOne(src, d, v, e, mem0, owner0, free0);
        if !ok {
          ghost var mem1, owner1 := mem, owner;
          FreeVm(d);
          PrivateGone(mem0, owner0, mem1, owner1, mem, owner, lo, d, lost);
          RestoredPool(mem0, owner0, free0, mem, owner, free, lost);
          LeakExact(|free0|, v, n, lost >= 0);
          LeakExact(|free0|, v, Gap(mem0, src, n), lost >= 0);
          return Failed, lost;
        }
        v := v + 1;
      }
      CopyFacts(mem0, owner0, free0, mem, owner, free, src, d, v, data);
      forall b | 0 <= b < 0x8000_0000
        ensures UserByte(mem, d, b) == if b / 4096 < n then UserByte(mem0, src, b) else None
      {
        CopyBytes(mem0, owner0, free0, mem, owner, free, src, d, n, data, b);
      }
      return Copied(d), -1;
    }

    /** walkpgdir without allocation, and the entry it points to. */
    method Entry(d: int, v: int) returns (e: Pte)
      requires Valid() && Is(owner, d, Dir) && 0 <= v < 0x10_0000
      modifies this`mem, this`free, this`owner
      ensures Valid() && mem == old(mem) && free == old(free) && owner == old(owner)
      ensures e == Lookup(mem, d, v)
    {
      hide Owned, FreeList;
      DirFacts(mem, owner, lo, d);
      var t := Walk(d, v, false);
      return if t.None? then Absent else mem[t.value].pte[v % 1024];
    }
  }

  // ----- copying an address space -----

  datatype CopyResult = Copied(d: int) | Failed | Stopped

  /** Frames that a copy of n pages takes: the 65 of the kernel part, the pages and their tables. */
  function Spent(n: int): int {
    65 + n + (n + 1023) / 1024
  }

  /** m free frames run out, in a copy of n pages, just when a user table is wanted. */
  predicate Leaks(m: int, n: int) {
    m >= 66 && (m - 66) % 1025 == 0 && (m - 66) / 1025 * 1024 < n
  }

  lemma LeakExact(m: int, v: int, n: int, took: bool)
    requires 0 <= v < n && m == Spent(v) + (if took then 1 else 0) && (took ==> v % 1024 == 0)
    ensures m < Spent(n) && (took <==> Leaks(m, n))
  {
    var q := (v + 1023) / 1024;
    if took {
      assert v == 1024 * q;
      Multiple1025(m - 66, q);
    } else if v > 0 {
      assert 1024 * (q - 1) < v <= 1024 * q;
      Between1025(m - 66, q);
    }
  }

  lemma Multiple1025(x: int, q: int)
    requires x == 1025 * q
    ensures x % 1025 == 0 && x / 1025 == q
  {
  }

  lemma Between1025(x: int, q: int)
    requires 1025 * (q - 1) < x < 1025 * q
    ensures x % 1025 != 0
  {
  }

  /** b maps, with a's flags, a frame that was free and now holds what a's frame holds. */
  ghost predicate CopyOf(mem0: Mem, owner0: Owner, mem: Mem, a: Pte, b: Pte) {
    && a.Present? && b.Present? && b.w == a.w && b.u == a.u
    && Is(owner0, b.frame, Free) && 0 <= a.frame < |mem0| && b.frame < |mem| && mem[b.frame] == mem0[a.frame]
  }

  /** d is a copy of the first k pages of src, with the kernel part; all else is as it was. */
  ghost predicate CopyState(mem0: Mem, owner0: Owner, free0: seq<int>, mem: Mem, owner: Owner, free: seq<int>, src: int, d: int, k: int, data: int) {
    && Private(mem0, owner0, mem, owner, d, -1)
    && Is(owner0, src, Dir) && Is(owner, d, Dir) && d < |mem| && IsTable(mem[d]) && 0 <= k <= KERNEL && 256 < data < PHYSTOP
    && (forall x {:trigger Lookup(mem, d, x)} :: 0 <= x < k ==> CopyOf(mem0, owner0, mem, Lookup(mem0, src, x), Lookup(mem, d, x)))
    && (forall x {:trigger Lookup(mem, d, x)} :: k <= x < 0x10_0000 ==> Lookup(mem, d, x) == KernelPte(data, x, 4))
    && (forall i :: 0 <= i < 512 ==> (mem[d].pte[i].Absent? <==> 1024 * i >= k))
    && Spent(k) <= |free0| && free == free0[Spent(k)..]
  }

  lemma CopyStart(mem0: Mem, owner0: Owner, free0: seq<int>, mem: Mem, owner: Owner, free: seq<int>, lo: int, src: int, d: int, data: int)
    requires Owned(mem0, owner0, lo) && Is(owner0, src, Dir) && KernState(mem0, owner0, free0, mem, owner, free, d, 4, data)
    requires 256 < data < PHYSTOP
    ensures CopyState(mem0, owner0, free0, mem, owner, free, src, d, 0, data)
  {
    hide Owned, Lookup, Private;
  }

  lemma CopyFacts(mem0: Mem, owner0: Owner, free0: seq<int>, mem: Mem, owner: Owner, free: seq<int>, src: int, d: int, k: int, data: int)
    requires CopyState(mem0, owner0, free0, mem, owner, free, src, d, k, data)
    ensures Private(mem0, owner0, mem, owner, d, -1) && Is(owner, d, Dir) && Is(owner, src, Dir)
    ensures |mem0| == |mem| == |owner| == |owner0|
    ensures |free0| == Spent(k) + |free|
    ensures forall x :: Lookup(mem, src, x) == Lookup(mem0, src, x)
    ensures forall x :: k <= x < KERNEL ==> Lookup(mem, d, x).Absent?
    ensures 0 <= d < |mem| && IsTable(mem[d])
  {
    hide Lookup, CopyOf;
  }

  lemma CopyTable(mem0: Mem, owner0: Owner, free0: seq<int>, mem: Mem, owner: Owner, free: seq<int>, src: int, d: int, v: int, data: int)
    requires CopyState(mem0, owner0, free0, mem, owner, free, src, d, v, data)
    requires 0 <= v < KERNEL && mem[d].pte[v / 1024].Absent?
    ensures v % 1024 == 0
  {
    hide Lookup, KernelPte, CopyOf, Private;
  }

  lemma PrivateHold(mem0: Mem, owner0: Owner, mem1: Mem, owner1: Owner, lo: int, d: int, f: int, p: Page)
    requires Owned(mem1, owner1, lo) && Private(mem0, owner0, mem1, owner1, d, -1) && Is(owner1, f, Free)
    ensures Is(owner0, f, Free)
    ensures Private(mem0, owner0, mem1[f := p], owner1[f := Held], d, f)
  {
    hide Lookup, Owned;
    FrameRange(mem1, owner1, lo, f);
    var mem := mem1[f := p];
    forall e, x | Is(owner0, e, Dir) && e != d
      ensures Lookup(mem, e, x) == Lookup(mem0, e, x)
    {
      assert Is(owner1, e, Dir);
      LooseLookup(mem1, owner1, lo, f, p, e, x);
      assert Lookup(mem1, e, x) == Lookup(mem0, e, x);
    }
  }

  lemma CopyStep(mem0: Mem, owner0: Owner, free0: seq<int>, mem1: Mem, owner1: Owner, free1: seq<int>,
                 mem2: Mem, owner2: Owner, free2: seq<int>, mem: Mem, owner: Owner, free: seq<int>,
                 lo: int, src: int, d: int, v: int, f: int, e: Pte, data: int)
    requires Owned(mem1, owner1, lo) && CopyState(mem0, owner0, free0, mem1, owner1, free1, src, d, v, data) && v < KERNEL
    requires e == Lookup(mem0, src, v) && e.Present? && Is(owner1, e.frame, User(src, v)) && Is(owner0, f, Free) && Is(owner1, f, Free)
    requires mem2 == mem1[f := mem1[e.frame]] && owner2 == owner1[f := Held]
    requires free1 != [] && free2 == free1[1..]
    requires forall x :: Lookup(mem2, d, x) == Lookup(mem1, d, x)
    requires MapState(mem2, owner2, free2, mem, owner, free, d, v, 1, f, e.w, e.u)
    requires Private(mem0, owner0, mem, owner, d, -1) && Is(owner, d, Dir)
    ensures CopyState(mem0, owner0, free0, mem, owner, free, src, d, v + 1, data)
  {
    hide Lookup, Owned, Tables, KernelPte, OthersSame;
    TablesOne(mem1[d].pte, v);
    assert mem2[d] == mem1[d];
    forall x | 0 <= x < v + 1
      ensures CopyOf(mem0, owner0, mem, Lookup(mem0, src, x), Lookup(mem, d, x))
    {
      if x < v {
        assert CopyOf(mem0, owner0, mem1, Lookup(mem0, src, x), Lookup(mem1, d, x));
        LookupOwner(mem1, owner1, lo, d, x);
      }
    }
  }

  /** The first of src's first n pages that is not there; n if all are. */
  ghost function Gap(mem: Mem, src: int, n: int): (x: int)
    requires 0 <= n
    ensures 0 <= x <= n && (x < n ==> Lookup(mem, src, x).Absent?)
    ensures forall y :: 0 <= y < x ==> Lookup(mem, src, y).Present?
  {
    if n == 0 then 0
    else
      var x := Gap(mem, src, n - 1);
      if x == n - 1 && Lookup(mem, src, x).Present? then n else x
  }

  /** A user of the copy reads, in its first k pages, the bytes of the original, and has no other pages. */
  lemma CopyBytes(mem0: Mem, owner0: Owner, free0: seq<int>, mem: Mem, owner: Owner, free: seq<int>, src: int, d: int, k: int, data: int, a: int)
    requires CopyState(mem0, owner0, free0, mem, owner, free, src, d, k, data) && 0 <= a < 0x8000_0000
    ensures UserByte(mem, d, a) == if a / 4096 < k then UserByte(mem0, src, a) else None
  {
    hide Lookup, Private;
    CopyFacts(mem0, owner0, free0, mem, owner, free, src, d, k, data);
    var x := a / 4096;
    if x < k {
      assert CopyOf(mem0, owner0, mem, Lookup(mem0, src, x), Lookup(mem, d, x));
    } else {
      assert Lookup(mem, d, x).Absent?;
    }
  }

  // ----- growing a process -----

  /** A writable user page on a frame that was free, all zeros. */
  ghost predicate NewPage(owner0: Owner, mem: Mem, e: Pte) {
    && e.Present? && e.w && e.u && Is(owner0, e.frame, Free) && e.frame < |mem|
    && mem[e.frame].Bytes? && |mem[e.frame].data| == 4096
    && forall j :: 0 <= j < 4096 ==> mem[e.frame].data[j] == 0
  }

  /** The byte that a user of address space d reads at address a, if the page is there and open to users. */
  function UserByte(mem: Mem, d: int, a: int): Option<int> {
    match Lookup(mem, d, a / 4096)
    case Absent => None
    case Present(f, _, u) =>
      if u && 0 <= f < |mem| && mem[f].Bytes? && |mem[f].data| == 4096 then Some(mem[f].data[a % 4096]) else None
  }

  /** In the user half, the new pages read as zeros whatever their frames held, and all other bytes are as before. */
  lemma AllocBytes(mem0: Mem, owner0: Owner, free0: seq<int>, mem: Mem, owner: Owner, free: seq<int>, lo: int, d: int, first: int, k: int, a: int)
    requires Owned(mem0, owner0, lo) && AllocState(mem0, owner0, free0, mem, owner, free, d, first, k)
    requires 0 <= a < 0x8000_0000
    ensures UserByte(mem, d, a) == if first <= a / 4096 < first + k then Some(0) else UserByte(mem0, d, a)
  {
    hide Owned, OthersSame, Touched, Tables, Lookup;
    var x := a / 4096;
    assert 0 <= x < KERNEL;
    if first <= x < first + k {
      assert NewPage(owner0, mem, Lookup(mem, d, x));
    } else {
      assert Lookup(mem, d, x) == Lookup(mem0, d, x);
      if Lookup(mem0, d, x).Present? {
        LookupOwner(mem0, owner0, lo, d, x);
      }
    }
  }

  /** d has k new pages from first on; the frames came from the pool and nothing else has changed. */
  ghost predicate AllocState(mem0: Mem, owner0: Owner, free0: seq<int>, mem: Mem, owner: Owner, free: seq<int>, d: int, first: int, k: int) {
    && 0 <= first && 0 <= k && first + k <= KERNEL
    && |mem0| == |mem| == |owner0| == |owner|
    && Is(owner0, d, Dir) && Is(owner, d, Dir) && IsTable(mem0[d]) && IsTable(mem[d])
    && Touched(mem0[d].pte, mem[d].pte, first, first + k)
    && (forall x :: 0 <= x < 0x10_0000 ==>
          if first <= x < first + k then NewPage(owner0, mem, Lookup(mem, d, x)) else Lookup(mem, d, x) == Lookup(mem0, d, x))
    && OthersSame(mem0, owner0, mem, d)
    && (forall f :: 0 <= f < |owner| && owner0[f] != Free ==>
          owner[f] == owner0[f] && (f == d || (owner0[f].Table? && owner0[f].d == d) || mem[f] == mem0[f]))
    && (forall f :: 0 <= f < |owner| && owner0[f] == Free ==>
          owner[f] == Free || (owner[f].Table? && owner[f].d == d) || UserIn(owner[f], d, first, first + k))
    && k + Tables(mem0[d].pte, first, first + k) <= |free0|
    && free == free0[k + Tables(mem0[d].pte, first, first + k)..]
  }

  /** Every map is as it was, and at most some tables of d have come out of the pool. */
  ghost predicate Undone(mem0: Mem, owner0: Owner, mem: Mem, owner: Owner, d: int) {
    && |mem0| == |mem| == |owner0| == |owner|
    && (forall e, x {:trigger Lookup(mem, e, x)} :: Is(owner0, e, Dir) ==> Lookup(mem, e, x) == Lookup(mem0, e, x))
    && (forall f :: 0 <= f < |owner| && owner0[f] != Free ==>
          owner[f] == owner0[f] && (f == d || (owner0[f].Table? && owner0[f].d == d) || mem[f] == mem0[f]))
    && (forall f :: 0 <= f < |owner| && owner0[f] == Free ==> owner[f] == Free || (owner[f].Table? && owner[f].d == d))
  }

  lemma LooseAll(mem: Mem, owner: Owner, lo: int, f: int, p: Page)
    requires Owned(mem, owner, lo) && lo <= f < PHYSTOP && owner[f] == Free
    ensures forall e, x :: Is(owner, e, Dir) ==> Lookup(mem[f := p], e, x) == Lookup(mem, e, x)
  {
    hide Lookup, Owned;
    Sizes(mem, owner, lo);
    forall e, x | Is(owner, e, Dir)
      ensures Lookup(mem[f := p], e, x) == Lookup(mem, e, x)
    {
      LooseLookup(mem, owner, lo, f, p, e, x);
    }
  }

  lemma AllocStart(mem: Mem, owner: Owner, free: seq<int>, d: int, first: int)
    requires |mem| == |owner| && Is(owner, d, Dir) && IsTable(mem[d]) && 0 <= first <= KERNEL
    ensures AllocState(mem, owner, free, mem, owner, free, d, first, 0)
  {
  }

  lemma AllocDir(mem0: Mem, owner0: Owner, free0: seq<int>, mem: Mem, owner: Owner, free: seq<int>, d: int, first: int, k: int, x: int)
    requires AllocState(mem0, owner0, free0, mem, owner, free, d, first, k)
    ensures Is(owner, d, Dir)
    ensures first + k <= x < 0x10_0000 ==> Lookup(mem, d, x) == Lookup(mem0, d, x)
  {
    hide Lookup;
  }

  lemma AllocEnough(mem0: Mem, owner0: Owner, free0: seq<int>, mem: Mem, owner: Owner, free: seq<int>, d: int, first: int, k: int)
    requires AllocState(mem0, owner0, free0, mem, owner, free, d, first, k)
    ensures k + Tables(mem0[d].pte, first, first + k) <= |free0|
  {
  }

  /** Taking a frame, zeroing it and mapping it. */
  lemma AllocOneState(mem0: Mem, owner0: Owner, free0: seq<int>, mem1: Mem, owner1: Owner, free1: seq<int>,
                      mem: Mem, owner: Owner, free: seq<int>, lo: int, d: int, v: int, f: int)
    requires Owned(mem0, owner0, lo) && Is(owner0, d, Dir) && Is(owner0, f, Free) && 0 <= v < KERNEL
    requires IsTable(mem0[d]) && free0 != [] && free1 == free0[1..]
    requires mem1 == mem0[f := ZeroPage()] && owner1 == owner0[f := Held]
    requires forall e, x :: Is(owner0, e, Dir) ==> Lookup(mem1, e, x) == Lookup(mem0, e, x)
    requires MapState(mem1, owner1, free1, mem, owner, free, d, v, 1, f, true, true)
    ensures AllocState(mem0, owner0, free0, mem, owner, free, d, v, 1)
  {
    hide Lookup, Owned, Tables, Touched;
    FrameRange(mem0, owner0, lo, f);
    forall e, x | Is(owner0, e, Dir) && e != d
      ensures Lookup(mem, e, x) == Lookup(mem0, e, x)
    {
      assert Is(owner1, e, Dir);
      assert Lookup(mem, e, x) == Lookup(mem1, e, x);
    }
    assert mem1[d] == mem0[d];
  }

  lemma AllocStep(mem0: Mem, owner0: Owner, free0: seq<int>, mem1: Mem, owner1: Owner, free1: seq<int>,
                  mem: Mem, owner: Owner, free: seq<int>, lo: int, d: int, first: int, k: int)
    requires Owned(mem1, owner1, lo) && AllocState(mem0, owner0, free0, mem1, owner1, free1, d, first, k)
    requires AllocState(mem1, owner1, free1, mem, owner, free, d, first + k, 1)
    ensures AllocState(mem0, owner0, free0, mem, owner, free, d, first, k + 1)
  {
    hide Lookup, Tables, Touched, Owned;
    AllocCount(mem0, owner0, free0, mem1, owner1, free1, mem, owner, free, d, first, k);
    forall e, x | Is(owner0, e, Dir) && e != d
      ensures Lookup(mem, e, x) == Lookup(mem0, e, x)
    {
      assert Is(owner1, e, Dir);
      assert Lookup(mem, e, x) == Lookup(mem1, e, x);
    }
    forall x | first <= x < first + k
      ensures NewPage(owner0, mem, Lookup(mem, d, x))
    {
      assert NewPage(owner0, mem1, Lookup(mem1, d, x));
      LookupOwner(mem1, owner1, lo, d, x);
      assert Lookup(mem, d, x) == Lookup(mem1, d, x);
    }
  }

  lemma AllocCount(mem0: Mem, owner0: Owner, free0: seq<int>, mem1: Mem, owner1: Owner, free1: seq<int>,
                   mem: Mem, owner: Owner, free: seq<int>, d: int, first: int, k: int)
    requires AllocState(mem0, owner0, free0, mem1, owner1, free1, d, first, k)
    requires AllocState(mem1, owner1, free1, mem, owner, free, d, first + k, 1)
    ensures Touched(mem0[d].pte, mem[d].pte, first, first + k + 1)
    ensures k + 1 + Tables(mem0[d].pte, first, first + k + 1) <= |free0|
    ensures free == free0[k + 1 + Tables(mem0[d].pte, first, first + k + 1)..]
  {
    hide Lookup, OthersSame, NewPage;
    var pte0, pte1, a := mem0[d].pte, mem1[d].pte, first + k;
    TablesStep(pte0, pte1, first, a);
    TablesStep(pte1, pte1, a, a);
    TouchedStep(pte0, pte1, mem[d].pte, first, a);
  }

  lemma AllocShort(mem0: Mem, owner0: Owner, free0: seq<int>, mem: Mem, owner: Owner, free: seq<int>, d: int, first: int, a: int, end: int, took: bool)
    requires AllocState(mem0, owner0, free0, mem, owner, free, d, first, a - first) && a < end <= 0x10_0000
    requires if took then |free| == 1 && mem[d].pte[a / 1024].Absent? else free == []
    ensures |free0| < end - first + Tables(mem0[d].pte, first, end)
  {
    hide Lookup, OthersSame, NewPage, Tables;
    TablesStep(mem0[d].pte, mem[d].pte, first, a);
    TablesMono(mem0[d].pte, first, a + 1, end);
  }

  lemma StillHeld(mem0: Mem, owner0: Owner, mem: Mem, owner: Owner, lo: int, d: int, first: int, end: int, f: int)
    requires DropState(mem0, owner0, mem, owner, d, first, end) && Is(owner0, f, Held) && Owned(mem0, owner0, lo)
    ensures Is(owner, f, Held) && lo <= f < PHYSTOP
  {
    hide Lookup;
  }

  /** deallocuvm and kfree take back all that the failing loop had mapped. */
  lemma UndoAlloc(mem0: Mem, owner0: Owner, free0: seq<int>, mem1: Mem, owner1: Owner, free1: seq<int>, mem2: Mem, owner2: Owner,
                  mem3: Mem, owner3: Owner, mem: Mem, owner: Owner, lo: int, d: int, first: int, a: int, end: int, page: Option<int>)
    requires Owned(mem0, owner0, lo) && Owned(mem1, owner1, lo) && Owned(mem3, owner3, lo)
    requires AllocState(mem0, owner0, free0, mem1, owner1, free1, d, first, a - first)
    requires first <= a < end <= KERNEL && forall x :: first <= x < end ==> Lookup(mem0, d, x).Absent?
    requires if page.None? then mem2 == mem1 && owner2 == owner1
             else Is(owner1, page.value, Free) && mem2 == mem1[page.value := ZeroPage()] && owner2 == owner1[page.value := Held]
    requires DropState(mem2, owner2, mem3, owner3, d, first, end)
    requires if page.None? then mem == mem3 && owner == owner3
             else Is(owner3, page.value, Held) && mem == mem3[page.value := Junk()] && owner == owner3[page.value := Free]
    ensures Undone(mem0, owner0, mem, owner, d)
  {
    hide Lookup, Owned, Touched, Tables;
    NoUserIn(mem0, owner0, lo, d, first, end);
    forall e, x | Is(owner0, e, Dir)
      ensures Lookup(mem, e, x) == Lookup(mem0, e, x)
    {
      UndoLookup(mem0, owner0, free0, mem1, owner1, free1, mem2, owner2, mem3, owner3, mem, lo, d, first, a, end, page, e, x);
    }
  }

  lemma NoUserIn(mem: Mem, owner: Owner, lo: int, d: int, first: int, end: int)
    requires Owned(mem, owner, lo)
    requires forall x :: first <= x < end ==> Lookup(mem, d, x).Absent?
    ensures forall f :: 0 <= f < |owner| ==> !UserIn(owner[f], d, first, end)
  {
    hide Lookup;
    forall f | 0 <= f < |owner|
      ensures !UserIn(owner[f], d, first, end)
    {
      assert FrameOk(mem, owner, f);
    }
  }

  lemma LookupOwner(mem: Mem, owner: Owner, lo: int, d: int, x: int)
    requires Owned(mem, owner, lo) && Is(owner, d, Dir) && 0 <= x < KERNEL && Lookup(mem, d, x).Present?
    ensures var f := Lookup(mem, d, x).frame;
            lo <= f < PHYSTOP && Is(owner, f, User(d, x)) && mem[f].Bytes?
  {
    assert FrameOk(mem, owner, d);
    assert FrameOk(mem, owner, mem[d].pte[x / 1024].frame);
    assert FrameOk(mem, owner, Lookup(mem, d, x).frame);
  }

  lemma UndoLookup(mem0: Mem, owner0: Owner, free0: seq<int>, mem1: Mem, owner1: Owner, free1: seq<int>, mem2: Mem, owner2: Owner,
                   mem3: Mem, owner3: Owner, mem: Mem, lo: int, d: int, first: int, a: int, end: int, page: Option<int>, e: int, x: int)
    requires Owned(mem1, owner1, lo) && Owned(mem3, owner3, lo) && AllocState(mem0, owner0, free0, mem1, owner1, free1, d, first, a - first)
    requires first <= a < end <= KERNEL && forall x :: first <= x < end ==> Lookup(mem0, d, x).Absent?
    requires if page.None? then mem2 == mem1 && owner2 == owner1
             else Is(owner1, page.value, Free) && mem2 == mem1[page.value := ZeroPage()] && owner2 == owner1[page.value := Held]
    requires DropState(mem2, owner2, mem3, owner3, d, first, end)
    requires if page.None? then mem == mem3 else Is(owner3, page.value, Held) && mem == mem3[page.value := Junk()]
    requires Is(owner0, e, Dir)
    ensures Lookup(mem, e, x) == Lookup(mem0, e, x)
  {
    hide Lookup, Owned, Touched, Tables;
    Sizes(mem1, owner1, lo);
    assert Is(owner1, e, Dir) && Is(owner2, e, Dir) && Is(owner3, e, Dir);
    if page.Some? {
      FrameRange(mem1, owner1, lo, page.value);
      LooseLookup(mem1, owner1, lo, page.value, ZeroPage(), e, x);
      LooseLookup(mem3, owner3, lo, page.value, Junk(), e, x);
    }
    if !(0 <= x < 0x10_0000) {
      NoPage(mem, e, x);
      NoPage(mem0, e, x);
    } else {
      assert Lookup(mem, e, x) == Lookup(mem3, e, x);
      assert Lookup(mem2, e, x) == Lookup(mem1, e, x);
      if e == d {
        assert first <= x < end ==> Lookup(mem3, d, x) == Absent == Lookup(mem0, d, x);
      } else {
        assert Lookup(mem3, e, x) == Lookup(mem2, e, x);
      }
    }
  }

  // ----- the kernel part of an address space -----

  datatype Kmap = Kmap(virt: int, start: int, end: int, w: bool)

  /** kmap; the last line runs to the end of the address space, so its size comes from 32-bit wrap-around. */
  function Kmaps(data: int): (r: seq<Kmap>)
    ensures |r| == 4
  {
    [Kmap(0x8000_0000, 0, 0x10_0000, true),
     Kmap(0x8010_0000, 0x10_0000, data * 4096, false),
     Kmap(0x8000_0000 + data * 4096, data * 4096, 0xE00_0000, true),
     Kmap(0xFE00_0000, 0xFE00_0000, 0, true)]
  }

  /** The first page of line k, and the page after its last. */
  function First(data: int, k: int): int {
    if k == 0 then 0x8_0000 else if k == 1 then 0x8_0100 else if k == 2 then 0x8_0000 + data else 0xF_E000
  }

  function Last(data: int, k: int): int {
    if k == 0 then 0x8_0100 else if k == 1 then 0x8_0000 + data else if k == 2 then 0x8_E000 else 0x10_0000
  }

  /**
  The mappings of the first k lines of kmap: physical memory from KERNBASE up, read-only for the kernel
  text, and the devices at their own addresses.
  */
  function KernelPte(data: int, x: int, k: int): Pte {
    if k > 0 && 0x8_0000 <= x < 0x8_0100 then Present(x - 0x8_0000, true, false)
    else if k > 1 && 0x8_0100 <= x < 0x8_0000 + data then Present(x - 0x8_0000, false, false)
    else if k > 2 && 0x8_0000 + data <= x < 0x8_E000 then Present(x - 0x8_0000, true, false)
    else if k > 3 && 0xF_E000 <= x < 0x10_0000 then Present(x, true, false)
    else Absent
  }

  /** The table pages of the first k lines: 56 for physical memory, 8 for the devices. */
  function KernTables(data: int, k: int): int {
    if k == 0 then 0 else if k == 1 then 1 else if k == 2 then (data - 1) / 1024 + 1 else if k == 3 then 56 else 64
  }

  lemma RegionShape(data: int, k: int)
    requires 256 < data < PHYSTOP && 0 <= k < 4
    ensures var m := Kmaps(data)[k]; var size := (m.end - m.start) % 0x1_0000_0000;
            && 0x8000_0000 <= m.virt && 0 < size && m.virt + size <= 0x1_0000_0000
            && m.virt / 4096 == First(data, k) && (m.virt + size - 1) / 4096 + 1 == Last(data, k)
  {
    var m := Kmaps(data)[k];
    var size := (m.end - m.start) % 0x1_0000_0000;
    if k == 1 {
      assert size == (data - 256) * 4096;
    } else if k == 2 {
      assert size == (PHYSTOP - data) * 4096;
    } else if k == 3 {
      assert size == 0x200_0000;
    }
  }

  lemma RegionPte(data: int, k: int, x: int)
    requires 256 < data < PHYSTOP && 0 <= k < 4
    ensures if First(data, k) <= x < Last(data, k)
            then KernelPte(data, x, k) == Absent
                 && KernelPte(data, x, k + 1) == Present(Kmaps(data)[k].start / 4096 + x - First(data, k), Kmaps(data)[k].w, false)
            else KernelPte(data, x, k + 1) == KernelPte(data, x, k)
  {
  }

  /** All that has come out of the pool belongs to d, but for a held frame h; the rest is as it was. */
  ghost predicate Private(mem0: Mem, owner0: Owner, mem: Mem, owner: Owner, d: int, h: int) {
    && |mem0| == |mem| == |owner0| == |owner|
    && Is(owner0, d, Free)
    && (forall f :: 0 <= f < |owner| && owner0[f] != Free ==> owner[f] == owner0[f] && mem[f] == mem0[f])
    && (forall f :: 0 <= f < |owner| && owner0[f] == Free ==>
          owner[f] == Free || Belongs(owner[f], f, d) || (f == h && owner[f] == Held))
    && OthersSame(mem0, owner0, mem, d)
  }

  /** Nothing has changed but the content of free frames, and that free frame h, if any, is now held. */
  ghost predicate Restored(mem0: Mem, owner0: Owner, mem: Mem, owner: Owner, h: int) {
    && |mem0| == |mem| == |owner0|
    && (h >= 0 ==> Is(owner0, h, Free))
    && owner == (if h < 0 then owner0 else owner0[h := Held])
    && (forall f :: 0 <= f < |owner0| && owner0[f] != Free ==> mem[f] == mem0[f])
    && OthersSame(mem0, owner0, mem, -1)
  }

  ghost predicate KernState(mem0: Mem, owner0: Owner, free0: seq<int>, mem: Mem, owner: Owner, free: seq<int>, d: int, k: int, data: int) {
    && Private(mem0, owner0, mem, owner, d, -1)
    && Is(owner, d, Dir) && d < |mem| && IsTable(mem[d])
    && (forall x :: 0 <= x < 0x10_0000 ==> Lookup(mem, d, x) == KernelPte(data, x, k))
    && (forall i :: 0 <= i < 1024 ==>
          (mem[d].pte[i].Present? <==> 512 <= i < 512 + KernTables(data, if k < 3 then k else 3) || (k == 4 && 1016 <= i)))
    && 0 <= KernTables(data, k) < |free0|
    && free == free0[1 + KernTables(data, k)..]
  }

  lemma KernWhole(mem0: Mem, owner0: Owner, free0: seq<int>, mem: Mem, owner: Owner, free: seq<int>, d: int, data: int)
    requires KernState(mem0, owner0, free0, mem, owner, free, d, 4, data) && 256 < data < PHYSTOP
    ensures forall x {:trigger Lookup(mem, d, x)} :: 0 <= x < 0x10_0000 ==>
      var e := Lookup(mem, d, x);
      && (e.Present? <==> 0x8_0000 <= x < 0x8_E000 || 0xF_E000 <= x)
      && (e.Present? ==>
            && !e.u && (e.w <==> !(0x8_0100 <= x < 0x8_0000 + data))
            && e.frame == if x < 0xF_E000 then x - 0x8_0000 else x)
  {
    hide Lookup, Private;
  }

  lemma RestoredSelf(mem: Mem, owner: Owner)
    requires |mem| == |owner|
    ensures Restored(mem, owner, mem, owner, -1)
  {
  }

  lemma KernDir(mem0: Mem, owner0: Owner, free0: seq<int>, mem: Mem, owner: Owner, free: seq<int>, d: int, k: int, data: int)
    requires KernState(mem0, owner0, free0, mem, owner, free, d, k, data)
    ensures Is(owner, d, Dir) && |free0| >= 1 + KernTables(data, k)
  {
  }

  lemma KernStart(mem0: Mem, owner0: Owner, free0: seq<int>, mem: Mem, owner: Owner, free: seq<int>, lo: int, d: int, data: int)
    requires Owned(mem0, owner0, lo) && Is(owner0, d, Free) && free0 != [] && free == free0[1..]
    requires mem == mem0[d := Entries(ZeroEntries())] && owner == owner0[d := Dir]
    ensures KernState(mem0, owner0, free0, mem, owner, free, d, 0, data)
  {
    hide Owned, Lookup;
    Sizes(mem0, owner0, lo);
    FrameRange(mem0, owner0, lo, d);
    forall x
      ensures Lookup(mem, d, x) == Absent
    {
      NewDirLookup(mem0, d, x);
    }
    forall e, x | Is(owner0, e, Dir)
      ensures Lookup(mem, e, x) == Lookup(mem0, e, x)
    {
      LooseLookup(mem0, owner0, lo, d, Entries(ZeroEntries()), e, x);
    }
  }

  /** Mapping more pages of d stays private to d. */
  lemma PrivateMap(mem0: Mem, owner0: Owner, mem1: Mem, owner1: Owner, free1: seq<int>, mem: Mem, owner: Owner, free: seq<int>,
                   lo: int, d: int, h: int, first: int, k: int, pa: int, w: bool, u: bool)
    requires Owned(mem0, owner0, lo) && Private(mem0, owner0, mem1, owner1, d, h)
    requires MapState(mem1, owner1, free1, mem, owner, free, d, first, k, pa, w, u)
    requires Is(owner1, d, Dir)
    requires first >= KERNEL || (k <= 1 && pa == h && Is(owner0, h, Free))
    ensures Private(mem0, owner0, mem, owner, d, h) && Is(owner, d, Dir)
    ensures k == 1 && pa == h && first < KERNEL ==> Private(mem0, owner0, mem, owner, d, -1)
  {
    hide Lookup, Touched, Tables, MapEffect, Owned;
    Strangers(mem0, owner0, lo, d);
    forall e, x | Is(owner0, e, Dir) && e != d
      ensures Lookup(mem, e, x) == Lookup(mem0, e, x)
    {
      assert Is(owner1, e, Dir);
      assert Lookup(mem, e, x) == Lookup(mem1, e, x);
    }
  }

  /** Nothing belongs to a frame that is free. */
  lemma Strangers(mem: Mem, owner: Owner, lo: int, d: int)
    requires Owned(mem, owner, lo) && Is(owner, d, Free)
    ensures forall f :: 0 <= f < |owner| && owner[f] != Free ==> !Belongs(owner[f], f, d)
  {
    forall f | 0 <= f < |owner| && owner[f] != Free
      ensures !Belongs(owner[f], f, d)
    {
      assert FrameOk(mem, owner, f);
    }
  }

  lemma PrivateGone(mem0: Mem, owner0: Owner, mem1: Mem, owner1: Owner, mem: Mem, owner: Owner, lo: int, d: int, h: int)
    requires Owned(mem0, owner0, lo) && Private(mem0, owner0, mem1, owner1, d, h) && GoneState(mem1, owner1, mem, owner, d)
    requires Is(owner1, d, Dir)
    requires h >= 0 ==> Is(owner0, h, Free) && Is(owner1, h, Held)
    ensures Restored(mem0, owner0, mem, owner, h)
  {
    hide Lookup, Owned;
    Strangers(mem0, owner0, lo, d);
    assert owner == if h < 0 then owner0 else owner0[h := Held];
    forall e, x | Is(owner0, e, Dir)
      ensures Lookup(mem, e, x) == Lookup(mem0, e, x)
    {
      assert Is(owner1, e, Dir) && e != d;
      assert Lookup(mem, e, x) == Lookup(mem1, e, x);
      assert Lookup(mem1, e, x) == Lookup(mem0, e, x);
    }
  }

  lemma KernPrivate(mem0: Mem, owner0: Owner, free0: seq<int>, mem1: Mem, owner1: Owner, free1: seq<int>, mem: Mem, owner: Owner, free: seq<int>,
                    lo: int, d: int, k: int, done: int, data: int)
    requires 0 <= k < 4 && 256 < data < PHYSTOP && Owned(mem0, owner0, lo)
    requires KernState(mem0, owner0, free0, mem1, owner1, free1, d, k, data)
    requires MapState(mem1, owner1, free1, mem, owner, free, d, First(data, k), done, Kmaps(data)[k].start / 4096, Kmaps(data)[k].w, false)
    ensures Private(mem0, owner0, mem, owner, d, -1) && Is(owner, d, Dir)
  {
    hide MapState, Private, Lookup, Owned;
    PrivateMap(mem0, owner0, mem1, owner1, free1, mem, owner, free, lo, d, -1, First(data, k), done,
               Kmaps(data)[k].start / 4096, Kmaps(data)[k].w, false);
  }

  /** The tables a whole line of kmap needs. */
  lemma RegionTables(pte: seq<Pte>, k: int, data: int)
    requires 0 <= k < 4 && 256 < data < PHYSTOP && |pte| == 1024
    requires forall i :: 0 <= i < 1024 ==>
      (pte[i].Present? <==> 512 <= i < 512 + KernTables(data, if k < 3 then k else 3) || (k == 4 && 1016 <= i))
    ensures Tables(pte, First(data, k), Last(data, k)) == KernTables(data, k + 1) - KernTables(data, k)
  {
    var i, j := First(data, k) / 1024, (Last(data, k) - 1) / 1024 + 1;
    var m := if k == 3 then 1016 else 512 + KernTables(data, k);
    MissingNone(pte, i, m, j);
  }

  lemma KernStep(mem0: Mem, owner0: Owner, free0: seq<int>, mem1: Mem, owner1: Owner, free1: seq<int>, mem: Mem, owner: Owner, free: seq<int>,
                 d: int, k: int, data: int)
    requires 0 <= k < 4 && 256 < data < PHYSTOP
    requires KernState(mem0, owner0, free0, mem1, owner1, free1, d, k, data)
    requires MapState(mem1, owner1, free1, mem, owner, free, d, First(data, k), Last(data, k) - First(data, k),
                      Kmaps(data)[k].start / 4096, Kmaps(data)[k].w, false)
    requires Private(mem0, owner0, mem, owner, d, -1) && Is(owner, d, Dir)
    ensures KernState(mem0, owner0, free0, mem, owner, free, d, k + 1, data)
  {
    hide Lookup, Private, Grew, OthersSame, Tables, KernelPte, Kmaps;
    RegionTables(mem1[d].pte, k, data);
    forall x | 0 <= x < 0x10_0000
      ensures Lookup(mem, d, x) == KernelPte(data, x, k + 1)
    {
      RegionPte(data, k, x);
    }
  }

  lemma KernClear(mem0: Mem, owner0: Owner, free0: seq<int>, mem1: Mem, owner1: Owner, free1: seq<int>, d: int, k: int, data: int, x: int)
    requires KernState(mem0, owner0, free0, mem1, owner1, free1, d, k, data)
    requires 0 <= k < 4 && 256 < data < PHYSTOP && First(data, k) <= x < Last(data, k)
    ensures Lookup(mem1, d, x).Absent?
  {
    hide Lookup, Private;
    RegionPte(data, k, x);
  }

  lemma KernShort(mem0: Mem, owner0: Owner, free0: seq<int>, mem1: Mem, owner1: Owner, free1: seq<int>, mem: Mem, owner: Owner, free: seq<int>,
                  d: int, k: int, done: int, data: int)
    requires 0 <= k < 4 && 256 < data < PHYSTOP && 0 <= done < Last(data, k) - First(data, k)
    requires KernState(mem0, owner0, free0, mem1, owner1, free1, d, k, data)
    requires MapState(mem1, owner1, free1, mem, owner, free, d, First(data, k), done, Kmaps(data)[k].start / 4096, Kmaps(data)[k].w, false)
    requires free == [] && mem[d].pte[(First(data, k) + done) / 1024].Absent?
    ensures |free0| < 65
  {
    hide Lookup, Private, Grew, OthersSame, MapEffect, Tables;
    var pte, first := mem1[d].pte, First(data, k);
    RegionTables(pte, k, data);
    TablesStep(pte, mem[d].pte, first, first + done);
    TablesMono(pte, first, first + done + 1, Last(data, k));
  }

  /** Address space d no longer exists: its frames are free, all others and all other maps are as before. */
  ghost predicate GoneState(mem0: Mem, owner0: Owner, mem: Mem, owner: Owner, d: int) {
    && |mem0| == |mem| == |owner0| == |owner|
    && (forall f :: 0 <= f < |owner| ==> owner[f] == if Belongs(owner0[f], f, d) then Free else owner0[f])
    && (forall f :: 0 <= f < |mem| && !Belongs(owner0[f], f, d) ==> mem[f] == mem0[f])
    && OthersSame(mem0, owner0, mem, d)
  }

  /** d has come apart and its first i tables are free again. */
  ghost predicate Parted(mem0: Mem, owner0: Owner, mem: Mem, owner: Owner, d: int, i: int) {
    && |mem0| == |mem| == |owner0| == |owner| && 0 <= d < |mem| && mem[d] == mem0[d] && IsTable(mem[d])
    && (forall f :: 0 <= f < |owner| ==>
          owner[f] == if owner0[f].Table? && owner0[f].d == d && owner0[f].i < i then Free
                      else if Belongs(owner0[f], f, d) then Held else owner0[f])
    && (forall f :: 0 <= f < |mem| && !Belongs(owner0[f], f, d) ==> mem[f] == mem0[f])
  }

  lemma NoUsers(mem0: Mem, owner0: Owner, mem: Mem, owner: Owner, lo: int, d: int)
    requires DropState(mem0, owner0, mem, owner, d, 0, KERNEL) && Owned(mem0, owner0, lo)
    ensures forall f :: 0 <= f < PHYSTOP && owner[f].User? ==> owner[f].d != d
  {
    hide Lookup, OthersSame;
    forall f | 0 <= f < PHYSTOP && owner[f].User?
      ensures owner[f].d != d
    {
      assert FrameOk(mem0, owner0, f);
    }
  }

  lemma DissolvedFree(free: seq<int>, owner: Owner, d: int)
    requires FreeList(free, owner) && Is(owner, d, Dir)
    ensures FreeList(free, Dissolved(owner, d))
  {
    forall f | Is(Dissolved(owner, d), f, Free)
      ensures f in free
    {
      assert Is(owner, f, Free);
    }
  }

  lemma PartedStart(mem: Mem, owner: Owner, lo: int, d: int)
    requires Owned(mem, owner, lo) && Is(owner, d, Dir) && IsTable(mem[d])
    ensures Parted(mem, owner, mem, Dissolved(owner, d), d, 0)
  {
    forall f | 0 <= f < |owner| && owner[f].Table?
      ensures 0 <= owner[f].i
    {
      assert FrameOk(mem, owner, f);
    }
  }

  lemma PartedEntry(mem0: Mem, owner0: Owner, mem: Mem, owner: Owner, lo: int, d: int, i: int)
    requires Owned(mem0, owner0, lo) && Owned(mem, owner, lo) && Is(owner0, d, Dir) && Parted(mem0, owner0, mem, owner, d, i) && 0 <= i < 1024
    ensures 0 <= d < |mem| == |owner| && IsTable(mem[d])
    ensures mem[d].pte[i].Present? ==> var f := mem[d].pte[i].frame; lo <= f < PHYSTOP && owner[f] == Held
  {
    assert FrameOk(mem0, owner0, d);
  }

  lemma PartedStep(mem0: Mem, owner0: Owner, mem1: Mem, owner1: Owner, mem: Mem, owner: Owner, lo: int, d: int, i: int)
    requires Owned(mem0, owner0, lo) && Is(owner0, d, Dir) && Parted(mem0, owner0, mem1, owner1, d, i) && 0 <= i < 1024
    requires match mem1[d].pte[i]
             case Absent => mem == mem1 && owner == owner1
             case Present(f, _, _) => 0 <= f < |mem1| && mem == mem1[f := Junk()] && owner == owner1[f := Free]
    ensures Parted(mem0, owner0, mem, owner, d, i + 1)
  {
    assert FrameOk(mem0, owner0, d);
    forall f | 0 <= f < |owner0| && owner0[f] == Table(d, i)
      ensures mem0[d].pte[i].Present? && mem0[d].pte[i].frame == f
    {
      assert FrameOk(mem0, owner0, f);
    }
  }

  lemma PartedHeld(mem0: Mem, owner0: Owner, mem: Mem, owner: Owner, lo: int, d: int)
    requires Owned(mem0, owner0, lo) && Is(owner0, d, Dir) && Parted(mem0, owner0, mem, owner, d, 1024)
    ensures lo <= d < PHYSTOP && |owner| == PHYSTOP && owner[d] == Held
  {
  }

  lemma PartedAll(mem0: Mem, owner0: Owner, mem1: Mem, owner1: Owner, mem2: Mem, owner2: Owner, mem: Mem, owner: Owner, lo: int, d: int)
    requires Owned(mem0, owner0, lo) && Is(owner0, d, Dir) && DropState(mem0, owner0, mem1, owner1, d, 0, KERNEL)
    requires Owned(mem1, owner1, lo) && Parted(mem1, owner1, mem2, owner2, d, 1024)
    requires mem == mem2[d := Junk()] && owner == owner2[d := Free]
    ensures GoneState(mem0, owner0, mem, owner, d)
  {
    hide Lookup;
    forall f | 0 <= f < |owner|
      ensures owner[f] == if Belongs(owner0[f], f, d) then Free else owner0[f]
    {
      assert FrameOk(mem0, owner0, f);
    }
    forall e, x | Is(owner0, e, Dir) && e != d
      ensures Lookup(mem, e, x) == Lookup(mem0, e, x)
    {
      assert Is(owner1, e, Dir);
      OtherDir(mem1, owner1, lo, mem, d, e, x);
    }
  }

  /** A map survives changes to frames of another address space. */
  lemma OtherDir(mem0: Mem, owner0: Owner, lo: int, mem: Mem, d: int, e: int, x: int)
    requires Owned(mem0, owner0, lo) && Is(owner0, e, Dir) && e != d && |mem| == |mem0| && Is(owner0, d, Dir)
    requires forall f :: 0 <= f < |mem| && !Belongs(owner0[f], f, d) ==> mem[f] == mem0[f]
    ensures Lookup(mem, e, x) == Lookup(mem0, e, x)
  {
    assert FrameOk(mem0, owner0, e);
    assert !Belongs(owner0[e], e, d);
    if 0 <= x < 0x10_0000 && mem0[e].pte[x / 1024].Present? {
      var t := mem0[e].pte[x / 1024].frame;
      assert FrameOk(mem0, owner0, t);
      assert !Belongs(owner0[t], t, d) || t == d;
    }
  }

  lemma DropDir(mem0: Mem, owner0: Owner, mem: Mem, owner: Owner, d: int, first: int, a: int)
    requires DropState(mem0, owner0, mem, owner, d, first, a) && Is(owner0, d, Dir)
    ensures Is(owner, d, Dir)
  {
  }

  lemma DropAbove(mem0: Mem, owner0: Owner, mem: Mem, owner: Owner, d: int, first: int, a: int)
    requires DropState(mem0, owner0, mem, owner, d, first, a) && 0 <= a
    ensures forall x :: a <= x < 0x10_0000 ==> Lookup(mem, d, x) == Lookup(mem0, d, x)
  {
    hide Lookup;
  }

  lemma HeldStill(mem0: Mem, owner0: Owner, free0: seq<int>, mem: Mem, owner: Owner, free: seq<int>,
                  d: int, first: int, a: int, pa: int, w: bool, u: bool)
    requires MapState(mem0, owner0, free0, mem, owner, free, d, first, a - first, pa, w, u)
    requires Is(owner0, pa + a - first, Held) && mem0[pa + a - first].Bytes?
    ensures Is(owner, pa + a - first, Held) && mem[pa + a - first].Bytes?
  {
  }

  lemma SameLookup(mem0: Mem, owner0: Owner, free0: seq<int>, mem: Mem, owner: Owner, free: seq<int>,
                   d: int, first: int, k: int, pa: int, w: bool, u: bool, x: int)
    requires MapState(mem0, owner0, free0, mem, owner, free, d, first, k, pa, w, u)
    requires 0 <= x < 0x10_0000 && !(first <= x < first + k)
    ensures Lookup(mem, d, x) == Lookup(mem0, d, x)
  {
    hide Lookup, Touched, Grew;
  }

  lemma DirKept(mem0: Mem, owner0: Owner, free0: seq<int>, mem: Mem, owner: Owner, free: seq<int>,
                d: int, first: int, k: int, pa: int, w: bool, u: bool)
    requires MapState(mem0, owner0, free0, mem, owner, free, d, first, k, pa, w, u)
    requires Is(owner0, d, Dir)
    ensures Is(owner, d, Dir)
  {
  }

  lemma LookupIn(mem: Mem, d: int, v: int, t: int)
    requires 0 <= d < |mem| && IsTable(mem[d]) && 0 <= v < 0x10_0000
    requires 0 <= t < |mem| && IsTable(mem[t]) && mem[d].pte[v / 1024].Present? && mem[d].pte[v / 1024].frame == t
    ensures Lookup(mem, d, v) == mem[t].pte[v % 1024]
  {
  }

  lemma Sizes(mem: Mem, owner: Owner, lo: int)
    requires Owned(mem, owner, lo)
    ensures |mem| == |owner| == PHYSTOP && 0 < lo <= PHYSTOP
  {
  }

  lemma FrameRange(mem: Mem, owner: Owner, lo: int, f: int)
    requires Owned(mem, owner, lo) && 0 <= f < |owner| && owner[f] != Reserved
    ensures |mem| == |owner| == PHYSTOP && lo <= f
  {
  }

  lemma DirFacts(mem: Mem, owner: Owner, lo: int, d: int)
    requires Owned(mem, owner, lo) && Is(owner, d, Dir)
    ensures |mem| == |owner| == PHYSTOP && IsTable(mem[d])
    ensures forall i :: 0 <= i < 1024 && mem[d].pte[i].Present? ==>
      && Is(owner, mem[d].pte[i].frame, Table(d, i)) && IsTable(mem[mem[d].pte[i].frame])
  {
    assert FrameOk(mem, owner, d);
    forall i | 0 <= i < 1024 && mem[d].pte[i].Present?
      ensures Is(owner, mem[d].pte[i].frame, Table(d, i)) && IsTable(mem[mem[d].pte[i].frame])
    {
      assert FrameOk(mem, owner, mem[d].pte[i].frame);
    }
  }
}
