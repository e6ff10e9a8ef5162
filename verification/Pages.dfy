/**
Physical page frames and two-level page tables (kalloc.c, vm.c): who owns each frame, what a directory
maps, and how the elementary changes of the table code move ownership.
*/
module Pages {
  const PHYSTOP: int := 57344 // 0xE000000 / PGSIZE: the first frame past physical memory
  const KERNEL: int := 524288 // KERNBASE / PGSIZE: the first kernel virtual page

  datatype Pte = Absent | Present(frame: int, w: bool, u: bool)

  /** A frame seen as bytes, or as the 1024 entries of a directory or table. */
  datatype Page = Bytes(data: seq<int>) | Entries(pte: seq<Pte>)

  type Mem = seq<Page>

  /** Held frames are out of the pool and in no address space (kernel stacks, pipes, a page just allocated). */
  datatype Role = Reserved | Free | Held | Dir | Table(d: int, i: int) | User(d: int, v: int)

  type Owner = seq<Role>

  predicate IsTable(p: Page) {
    p.Entries? && |p.pte| == 1024
  }

  /** What directory d maps virtual page v to: the flat map that the two levels implement. */
  function Lookup(mem: Mem, d: int, v: int): Pte {
    if !(0 <= d < |mem| && IsTable(mem[d]) && 0 <= v < 0x10_0000) then Absent
    else match mem[d].pte[v / 1024]
      case Absent => Absent
      case Present(t, _, _) => if 0 <= t < |mem| && IsTable(mem[t]) then mem[t].pte[v % 1024] else Absent
  }

  ghost predicate Is(owner: Owner, f: int, r: Role) {
    0 <= f < |owner| && owner[f] == r
  }

  /** What the role of frame f promises about its content and about the entry that refers to it. */
  ghost predicate FrameOk(mem: Mem, owner: Owner, f: int)
    requires |mem| == |owner| && 0 <= f < |mem|
  {
    match owner[f]
    case Reserved => true
    case Free => true
    case Held => true
    case Dir =>
      && IsTable(mem[f])
      && (forall i :: 0 <= i < 1024 && mem[f].pte[i].Present? ==> Is(owner, mem[f].pte[i].frame, Table(f, i)))
    case Table(d, i) =>
      && Is(owner, d, Dir) && 0 <= i < 1024
      && IsTable(mem[d]) && mem[d].pte[i] == Present(f, true, true)
      && IsTable(mem[f])
      && (i < 512 ==>
            forall j :: 0 <= j < 1024 && mem[f].pte[j].Present? ==> Is(owner, mem[f].pte[j].frame, User(d, 1024 * i + j)))
    case User(d, v) =>
      && Is(owner, d, Dir) && 0 <= v < KERNEL
      && mem[f].Bytes?
      && Lookup(mem, d, v).Present? && Lookup(mem, d, v).frame == f
  }

  /** Every frame from lo up has exactly one role, and the tables and the roles agree. */
  ghost predicate Owned(mem: Mem, owner: Owner, lo: int) {
    && |mem| == |owner| == PHYSTOP
    && 0 < lo <= PHYSTOP
    && (forall f :: 0 <= f < PHYSTOP ==> (owner[f] == Reserved <==> f < lo))
    && (forall f {:trigger FrameOk(mem, owner, f)} :: 0 <= f < PHYSTOP ==> FrameOk(mem, owner, f))
  }

  /** The free list holds every free frame once. */
  ghost predicate FreeList(free: seq<int>, owner: Owner) {
    && (forall i, j :: 0 <= i < j < |free| ==> free[i] != free[j])
    && (forall i :: 0 <= i < |free| ==> Is(owner, free[i], Free))
    && (forall f :: Is(owner, f, Free) ==> f in free)
  }

  // ----- elementary changes -----

  function ZeroEntries(): (r: seq<Pte>)
    ensures |r| == 1024 && forall i :: 0 <= i < 1024 ==> r[i] == Absent
  {
    seq(1024, _ => Absent)
  }

  function SetEntry(mem: Mem, t: int, j: int, e: Pte): (r: Mem)
    requires 0 <= t < |mem| && IsTable(mem[t]) && 0 <= j < 1024
  {
    mem[t := Entries(mem[t].pte[j := e])]
  }

  /** A frame no entry refers to may become free or held, with any content. */
  lemma Loose(mem: Mem, owner: Owner, lo: int, f: int, p: Page, r: Role)
    requires Owned(mem, owner, lo) && lo <= f < PHYSTOP
    requires owner[f] == Free || owner[f] == Held
    requires r == Free || r == Held || (r == Dir && p == Entries(ZeroEntries()))
    ensures Owned(mem[f := p], owner[f := r], lo)
  {
    var mem', owner' := mem[f := p], owner[f := r];
    forall g | 0 <= g < PHYSTOP
      ensures FrameOk(mem', owner', g)
    {
      LooseFrame(mem, owner, lo, f, p, r, g);
    }
  }

  lemma LooseFrame(mem: Mem, owner: Owner, lo: int, f: int, p: Page, r: Role, g: int)
    requires Owned(mem, owner, lo) && lo <= f < PHYSTOP
    requires owner[f] == Free || owner[f] == Held
    requires r == Free || r == Held || (r == Dir && p == Entries(ZeroEntries()))
    requires 0 <= g < PHYSTOP
    ensures FrameOk(mem[f := p], owner[f := r], g)
  {
    assert FrameOk(mem, owner, g);
    if g != f && owner[g].User? {
      var _ := UserTable(mem, owner, lo, g);
    }
  }

  /** The table through which a user frame is mapped. */
  lemma UserTable(mem: Mem, owner: Owner, lo: int, g: int) returns (t: int)
    requires Owned(mem, owner, lo) && 0 <= g < PHYSTOP && owner[g].User?
    ensures var d, v := owner[g].d, owner[g].v;
            && Is(owner, d, Dir) && 0 <= v < KERNEL && IsTable(mem[d])
            && Is(owner, t, Table(d, v / 1024)) && IsTable(mem[t])
            && mem[d].pte[v / 1024] == Present(t, true, true)
            && mem[t].pte[v % 1024].Present? && mem[t].pte[v % 1024].frame == g
  {
    assert FrameOk(mem, owner, g);
    var d, v := owner[g].d, owner[g].v;
    assert FrameOk(mem, owner, d);
    t := mem[d].pte[v / 1024].frame;
    assert FrameOk(mem, owner, t);
  }

  /** Loose frames are in nobody's view. */
  lemma LooseLookup(mem: Mem, owner: Owner, lo: int, f: int, p: Page, d: int, v: int)
    requires Owned(mem, owner, lo) && lo <= f < PHYSTOP
    requires owner[f] == Free || owner[f] == Held
    requires Is(owner, d, Dir)
    ensures Lookup(mem[f := p], d, v) == Lookup(mem, d, v)
  {
    assert FrameOk(mem, owner, d);
  }

  lemma NewDirLookup(mem: Mem, d: int, v: int)
    requires 0 <= d < |mem|
    ensures Lookup(mem[d := Entries(ZeroEntries())], d, v) == Absent
  {
  }

  /** walkpgdir's allocation: held frame t becomes the table for entry i of directory d. */
  function WithTable(mem: Mem, d: int, i: int, t: int): (r: Mem)
    requires 0 <= d < |mem| && IsTable(mem[d]) && 0 <= i < 1024 && 0 <= t < |mem| && t != d
  {
    SetEntry(mem[t := Entries(ZeroEntries())], d, i, Present(t, true, true))
  }

  lemma AddTable(mem: Mem, owner: Owner, lo: int, d: int, i: int, t: int)
    requires Owned(mem, owner, lo)
    requires Is(owner, d, Dir) && 0 <= i < 1024 && IsTable(mem[d]) && mem[d].pte[i].Absent?
    requires Is(owner, t, Held)
    ensures Owned(WithTable(mem, d, i, t), owner[t := Table(d, i)], lo)
  {
    var mem', owner' := WithTable(mem, d, i, t), owner[t := Table(d, i)];
    forall g | 0 <= g < PHYSTOP
      ensures FrameOk(mem', owner', g)
    {
      AddTableFrame(mem, owner, lo, d, i, t, g);
    }
  }

  lemma AddTableFrame(mem: Mem, owner: Owner, lo: int, d: int, i: int, t: int, g: int)
    requires Owned(mem, owner, lo)
    requires Is(owner, d, Dir) && 0 <= i < 1024 && IsTable(mem[d]) && mem[d].pte[i].Absent?
    requires Is(owner, t, Held)
    requires 0 <= g < PHYSTOP
    ensures FrameOk(WithTable(mem, d, i, t), owner[t := Table(d, i)], g)
  {
    assert FrameOk(mem, owner, g);
    if owner[g].User? {
      var _ := UserTable(mem, owner, lo, g);
    }
  }

  lemma AddTableLookup(mem: Mem, owner: Owner, lo: int, d: int, i: int, t: int, e: int, v: int)
    requires Owned(mem, owner, lo)
    requires Is(owner, d, Dir) && 0 <= i < 1024 && IsTable(mem[d]) && mem[d].pte[i].Absent?
    requires (Is(owner, t, Free) || Is(owner, t, Held)) && Is(owner, e, Dir)
    ensures Lookup(WithTable(mem, d, i, t), e, v) == Lookup(mem, e, v)
  {
    assert FrameOk(mem, owner, e);
  }

  /** A kernel entry may hold anything: it owns nothing. */
  lemma PutKernel(mem: Mem, owner: Owner, lo: int, t: int, j: int, e: Pte)
    requires Owned(mem, owner, lo)
    requires 0 <= t < PHYSTOP && owner[t].Table? && owner[t].i >= 512 && 0 <= j < 1024 && IsTable(mem[t])
    ensures Owned(SetEntry(mem, t, j, e), owner, lo)
  {
    var mem' := SetEntry(mem, t, j, e);
    forall g | 0 <= g < PHYSTOP
      ensures FrameOk(mem', owner, g)
    {
      assert FrameOk(mem, owner, g);
      if owner[g].User? {
        var _ := UserTable(mem, owner, lo, g);
      }
    }
  }

  /** A held page becomes a user page of d. */
  lemma PutUser(mem: Mem, owner: Owner, lo: int, t: int, j: int, f: int, w: bool, u: bool)
    requires Owned(mem, owner, lo)
    requires 0 <= t < PHYSTOP && owner[t].Table? && 0 <= owner[t].i < 512 && 0 <= j < 1024 && IsTable(mem[t])
    requires mem[t].pte[j].Absent? && Is(owner, f, Held) && mem[f].Bytes?
    ensures Owned(SetEntry(mem, t, j, Present(f, w, u)), owner[f := User(owner[t].d, 1024 * owner[t].i + j)], lo)
  {
    var mem', owner' := SetEntry(mem, t, j, Present(f, w, u)), owner[f := User(owner[t].d, 1024 * owner[t].i + j)];
    forall g | 0 <= g < PHYSTOP
      ensures FrameOk(mem', owner', g)
    {
      PutUserFrame(mem, owner, lo, t, j, f, w, u, g);
    }
  }

  lemma PutUserFrame(mem: Mem, owner: Owner, lo: int, t: int, j: int, f: int, w: bool, u: bool, g: int)
    requires Owned(mem, owner, lo)
    requires 0 <= t < PHYSTOP && owner[t].Table? && 0 <= owner[t].i < 512 && 0 <= j < 1024 && IsTable(mem[t])
    requires mem[t].pte[j].Absent? && Is(owner, f, Held) && mem[f].Bytes?
    requires 0 <= g < PHYSTOP
    ensures FrameOk(SetEntry(mem, t, j, Present(f, w, u)), owner[f := User(owner[t].d, 1024 * owner[t].i + j)], g)
  {
    assert FrameOk(mem, owner, g);
    assert FrameOk(mem, owner, t);
    if owner[g].User? {
      var _ := UserTable(mem, owner, lo, g);
    }
  }

  /** deallocuvm's step: the entry goes, and the frame returns to the pool. */
  lemma DropUser(mem: Mem, owner: Owner, lo: int, t: int, j: int, p: Page)
    requires Owned(mem, owner, lo)
    requires 0 <= t < PHYSTOP && owner[t].Table? && 0 <= owner[t].i < 512 && 0 <= j < 1024 && IsTable(mem[t])
    requires mem[t].pte[j].Present?
    ensures var f := mem[t].pte[j].frame;
            && Is(owner, f, User(owner[t].d, 1024 * owner[t].i + j)) && f != t && lo <= f
            && Owned(SetEntry(mem[f := p], t, j, Absent), owner[f := Free], lo)
  {
    assert FrameOk(mem, owner, t);
    var f := mem[t].pte[j].frame;
    var mem', owner' := SetEntry(mem[f := p], t, j, Absent), owner[f := Free];
    forall g | 0 <= g < PHYSTOP
      ensures FrameOk(mem', owner', g)
    {
      DropUserFrame(mem, owner, lo, t, j, p, g);
    }
  }

  lemma DropUserFrame(mem: Mem, owner: Owner, lo: int, t: int, j: int, p: Page, g: int)
    requires Owned(mem, owner, lo)
    requires 0 <= t < PHYSTOP && owner[t].Table? && 0 <= owner[t].i < 512 && 0 <= j < 1024 && IsTable(mem[t])
    requires mem[t].pte[j].Present? && Is(owner, mem[t].pte[j].frame, User(owner[t].d, 1024 * owner[t].i + j))
    requires 0 <= g < PHYSTOP
    ensures var f := mem[t].pte[j].frame;
            FrameOk(SetEntry(mem[f := p], t, j, Absent), owner[f := Free], g)
  {
    assert FrameOk(mem, owner, g);
    assert FrameOk(mem, owner, t);
    if owner[g].User? {
      var _ := UserTable(mem, owner, lo, g);
    }
  }

  /** One entry of a table is one page of its directory's map, and of no other map. */
  lemma SetEntryLookup(mem: Mem, owner: Owner, lo: int, t: int, j: int, e: Pte, d: int, v: int)
    requires Owned(mem, owner, lo)
    requires 0 <= t < PHYSTOP && owner[t].Table? && 0 <= j < 1024 && IsTable(mem[t])
    requires Is(owner, d, Dir) && 0 <= v < 0x10_0000
    ensures Lookup(SetEntry(mem, t, j, e), d, v) ==
            if d == owner[t].d && v == 1024 * owner[t].i + j then e else Lookup(mem, d, v)
  {
    assert FrameOk(mem, owner, d);
    assert FrameOk(mem, owner, t);
  }

  /** Frame f belongs to address space d. */
  predicate Belongs(r: Role, f: int, d: int) {
    f == d || (r.Table? && r.d == d) || (r.User? && r.d == d)
  }

  /** An address space without user pages comes apart: its directory and tables are only held. */
  ghost function Dissolved(owner: Owner, d: int): (r: Owner) {
    seq(|owner|, f requires 0 <= f < |owner| => if Belongs(owner[f], f, d) then Held else owner[f])
  }

  lemma Dissolve(mem: Mem, owner: Owner, lo: int, d: int)
    requires Owned(mem, owner, lo) && Is(owner, d, Dir)
    requires forall f :: 0 <= f < PHYSTOP && owner[f].User? ==> owner[f].d != d
    ensures Owned(mem, Dissolved(owner, d), lo)
  {
    var owner' := Dissolved(owner, d);
    forall g | 0 <= g < PHYSTOP
      ensures FrameOk(mem, owner', g)
    {
      assert FrameOk(mem, owner, g);
    }
    forall g | 0 <= g < PHYSTOP
      ensures owner'[g] == Reserved <==> g < lo
    {
      assert FrameOk(mem, owner, g);
    }
  }
}
