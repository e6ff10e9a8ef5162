/**
Directories (fs.c): a file of 16-byte entries, a little-endian inode number followed by a name of
at most 14 bytes, read as a finite map from names to inode numbers.
*/
module Directory {
  import opened Params
  import opened FsImage
  import opened FsFile
  import opened FsLog
  import opened FileSystem

  const DIRSIZ := 14
  const DIRENT := 16

  // ----- names -----

  /** A name as the directory sees it: the bytes before the first NUL, at most n of them. */
  function Key(s: seq<int>, n: nat): (k: seq<int>)
    ensures |k| <= n && |k| <= |s| && k == s[..|k|] && 0 !in k
    ensures |k| == n || |k| == |s| || s[|k|] == 0
  {
    if n == 0 || s == [] || s[0] == 0 then [] else [s[0]] + Key(s[1..], n - 1)
  }

  /** What a C string s shows at index i: its bytes, then NUL. */
  function At(s: seq<int>, i: nat): int {
    if i < |s| then s[i] else 0
  }

  /** One turn of strncmp at index i with n bytes to go. */
  lemma CompareStep(s: seq<int>, t: seq<int>, i: nat, n: nat)
    requires i <= |s| && i <= |t|
    ensures if n > 0 && At(s, i) != 0 && At(s, i) == At(t, i)
            then i < |s| && i < |t|
              && (Key(s[i..], n) == Key(t[i..], n) <==> Key(s[i + 1..], n - 1) == Key(t[i + 1..], n - 1))
            else (Key(s[i..], n) == Key(t[i..], n) <==> n == 0 || At(s, i) == At(t, i))
  {
    hide Key;
    if n > 0 {
      KeyStep(s, i, n);
      KeyStep(t, i, n);
      if At(s, i) != 0 && At(t, i) != 0 {
        SameCons(s[i], t[i], Key(s[i + 1..], n - 1), Key(t[i + 1..], n - 1));
      }
    }
  }

  lemma SameCons(x: int, y: int, a: seq<int>, b: seq<int>)
    ensures [x] + a == [y] + b <==> x == y && a == b
  {
    assert ([x] + a)[1..] == a && ([y] + b)[1..] == b;
    assert ([x] + a)[0] == x && ([y] + b)[0] == y;
  }

  lemma KeyStep(s: seq<int>, i: nat, n: nat)
    requires i <= |s| && n > 0
    ensures Key(s[i..], n) == if At(s, i) == 0 then [] else [s[i]] + Key(s[i + 1..], n - 1)
  {
    if i < |s| {
      assert s[i..][1..] == s[i + 1..];
    }
  }

  /** namecmp: strncmp(s, t, DIRSIZ) == 0. */
  method Namecmp(s: seq<int>, t: seq<int>) returns (same: bool)
    ensures same <==> Key(s, DIRSIZ) == Key(t, DIRSIZ)
  {
    hide Key;
    assert s[0..] == s && t[0..] == t;
    var n, i := DIRSIZ, 0;
    while n > 0 && At(s, i) != 0 && At(s, i) == At(t, i)
      invariant 0 <= n && i + n == DIRSIZ
      invariant i <= |s| && i <= |t|
      invariant (Key(s, DIRSIZ) == Key(t, DIRSIZ)) <==> (Key(s[i..], n) == Key(t[i..], n))
    {
      CompareStep(s, t, i, n);
      n, i := n - 1, i + 1;
    }
    CompareStep(s, t, i, n);
    return n == 0 || At(s, i) == At(t, i);
  }

  function Zeros(n: nat): (z: seq<int>)
    ensures |z| == n && forall i :: 0 <= i < n ==> z[i] == 0
  {
    if n == 0 then [] else [0] + Zeros(n - 1)
  }

  /** strncpy: copy up to n bytes, stop at NUL, pad with NULs. */
  function Strncpy(t: seq<int>, n: nat): (r: seq<int>)
    ensures |r| == n
  {
    Key(t, n) + Zeros(n - |Key(t, n)|)
  }

  /** The stored name is read back as the same name. */
  lemma {:induction false} KeyOfCopy(t: seq<int>, n: nat)
    ensures Key(Strncpy(t, n), n) == Key(t, n)
  {
    KeyPadded(Key(t, n), n);
  }

  lemma {:induction false} KeyPadded(k: seq<int>, n: nat)
    requires |k| <= n && 0 !in k
    ensures Key(k + Zeros(n - |k|), n) == k
  {
    if k != [] {
      KeyPadded(k[1..], n - 1);
      assert (k + Zeros(n - |k|))[1..] == k[1..] + Zeros(n - |k|);
    }
  }

  // ----- entries -----

  function Inum(c: seq<int>, k: int): int {
    if 0 <= k && 16 * k + 16 <= |c| then c[16 * k] + 0x100 * c[16 * k + 1] else 0
  }

  function Name(c: seq<int>, k: int): seq<int> {
    if 0 <= k && 16 * k + 16 <= |c| then Key(c[16 * k + 2..16 * k + 16], DIRSIZ) else []
  }

  predicate Names(c: seq<int>, k: int, key: seq<int>) {
    Inum(c, k) != 0 && Name(c, k) == key
  }

  /** Whole entries, and no two live ones with the same name. */
  ghost predicate DirOk(c: seq<int>) {
    && |c| % 16 == 0
    && forall j, k :: 0 <= j < k && Inum(c, j) != 0 && Inum(c, k) != 0 ==> Name(c, j) != Name(c, k)
  }

  /** The directory as a finite map. */
  ghost predicate Binds(c: seq<int>, key: seq<int>, inum: int) {
    exists k :: Names(c, k, key) && Inum(c, k) == inum
  }

  /** In a well-formed directory a name is bound at most once. */
  lemma BindsUnique(c: seq<int>, key: seq<int>, a: int, b: int)
    requires DirOk(c) && Binds(c, key, a) && Binds(c, key, b)
    ensures a == b
  {
    var j :| Names(c, j, key) && Inum(c, j) == a;
    var k :| Names(c, k, key) && Inum(c, k) == b;
    assert j == k;
  }

  /** The 16 bytes dirlink writes; the inode number is cut to 16 bits. */
  function Dirent(inum: nat, name: seq<int>): (e: seq<int>)
    ensures |e| == DIRENT
  {
    [inum % 0x100, inum / 0x100 % 0x100] + Strncpy(name, DIRSIZ)
  }

  /** Overwriting entry k, or appending it, changes entry k only. */
  lemma SpliceEntry(c: seq<int>, k: nat, e: seq<int>, j: int)
    requires |c| % 16 == 0 && 16 * k <= |c| && |e| == DIRENT
    ensures var d := Splice(c, 16 * k, e);
            && |d| % 16 == 0
            && (j != k ==> Inum(d, j) == Inum(c, j) && Name(d, j) == Name(c, j))
            && Inum(d, k) == e[0] + 0x100 * e[1]
            && Name(d, k) == Key(e[2..], DIRSIZ)
  {
    var d := Splice(c, 16 * k, e);
    assert d[16 * k + 2..16 * k + 16] == e[2..];
    if j != k && 0 <= j && 16 * j + 16 <= |d| {
      assert 16 * j + 16 <= |c|;
      assert d[16 * j + 2..16 * j + 16] == c[16 * j + 2..16 * j + 16];
    }
  }

  lemma DirentParts(inum: nat, name: seq<int>)
    ensures var e := Dirent(inum, name);
            e[0] + 0x100 * e[1] == inum % 0x1_0000 && Key(e[2..], DIRSIZ) == Key(name, DIRSIZ)
  {
    var e := Dirent(inum, name);
    assert e[2..] == Strncpy(name, DIRSIZ);
    KeyOfCopy(name, DIRSIZ);
    assert inum % 0x1_0000 == inum % 0x100 + 0x100 * (inum / 0x100 % 0x100);
  }

  /** Linking a fresh name binds it and leaves every other name as it was. */
  lemma LinkBinds(c: seq<int>, k: nat, inum: nat, name: seq<int>)
    requires DirOk(c) && 16 * k <= |c| && Inum(c, k) == 0
    requires forall j :: !Names(c, j, Key(name, DIRSIZ))
    ensures var d := Splice(c, 16 * k, Dirent(inum, name));
            && DirOk(d)
            && (inum % 0x1_0000 != 0 ==> Binds(d, Key(name, DIRSIZ), inum % 0x1_0000))
            && (forall key, x :: key != Key(name, DIRSIZ) ==> (Binds(d, key, x) <==> Binds(c, key, x)))
  {
    var key0 := Key(name, DIRSIZ);
    var d := Splice(c, 16 * k, Dirent(inum, name));
    DirentParts(inum, name);
    forall j
      ensures j != k ==> Inum(d, j) == Inum(c, j) && Name(d, j) == Name(c, j)
      ensures |d| % 16 == 0 && Inum(d, k) == inum % 0x1_0000 && Name(d, k) == key0
    {
      SpliceEntry(c, k, Dirent(inum, name), j);
    }
    LinkedMap(c, d, k, key0);
  }

  lemma LinkedMap(c: seq<int>, d: seq<int>, k: int, key0: seq<int>)
    requires DirOk(c) && |d| % 16 == 0 && Inum(c, k) == 0 && Name(d, k) == key0
    requires forall j {:trigger Inum(d, j)} {:trigger Name(d, j)} :: j != k ==> Inum(d, j) == Inum(c, j) && Name(d, j) == Name(c, j)
    requires forall j :: !Names(c, j, key0)
    ensures DirOk(d)
    ensures Inum(d, k) != 0 ==> Binds(d, key0, Inum(d, k))
    ensures forall key, x :: key != key0 ==> (Binds(d, key, x) <==> Binds(c, key, x))
  {
    hide Inum, Name;
    forall i, j | 0 <= i < j && Inum(d, i) != 0 && Inum(d, j) != 0
      ensures Name(d, i) != Name(d, j)
    {
      if i == k {
        assert !Names(c, j, key0);
      } else if j == k {
        assert !Names(c, i, key0);
      }
    }
    assert Inum(d, k) != 0 ==> Names(d, k, key0);
    forall key, x | key != key0
      ensures Binds(d, key, x) <==> Binds(c, key, x)
    {
      if Binds(c, key, x) {
        var j :| Names(c, j, key) && Inum(c, j) == x;
        assert Names(d, j, key);
      }
      if Binds(d, key, x) {
        var j :| Names(d, j, key) && Inum(d, j) == x;
        assert Names(c, j, key);
      }
    }
  }

  /** Zeroing an entry, as unlink does, unbinds exactly its name. */
  lemma UnlinkBinds(c: seq<int>, k: nat)
    requires DirOk(c) && 16 * k + 16 <= |c| && Inum(c, k) != 0
    ensures var d := Splice(c, 16 * k, Zeros(DIRENT));
            && DirOk(d)
            && (forall x :: !Binds(d, Name(c, k), x))
            && (forall key, x :: key != Name(c, k) ==> (Binds(d, key, x) <==> Binds(c, key, x)))
  {
    var d := Splice(c, 16 * k, Zeros(DIRENT));
    forall j
      ensures j != k ==> Inum(d, j) == Inum(c, j) && Name(d, j) == Name(c, j)
      ensures |d| % 16 == 0 && Inum(d, k) == 0
    {
      SpliceEntry(c, k, Zeros(DIRENT), j);
    }
    UnlinkedMap(c, d, k);
  }

  lemma UnlinkedMap(c: seq<int>, d: seq<int>, k: nat)
    requires DirOk(c) && |d| % 16 == 0 && Inum(c, k) != 0 && Inum(d, k) == 0
    requires forall j {:trigger Inum(d, j)} {:trigger Name(d, j)} :: j != k ==> Inum(d, j) == Inum(c, j) && Name(d, j) == Name(c, j)
    ensures DirOk(d)
    ensures forall x :: !Binds(d, Name(c, k), x)
    ensures forall key, x :: key != Name(c, k) ==> (Binds(d, key, x) <==> Binds(c, key, x))
  {
    hide Name;
    assert forall j :: Inum(c, j) != 0 ==> 0 <= j;
    assert forall j :: Names(d, j, Name(c, k)) ==> j == k;
    forall key, x | key != Name(c, k)
      ensures Binds(d, key, x) <==> Binds(c, key, x)
    {
      if Binds(c, key, x) {
        var j :| Names(c, j, key) && Inum(c, j) == x;
        assert Names(d, j, key);
      }
      if Binds(d, key, x) {
        var j :| Names(d, j, key) && Inum(d, j) == x;
        assert Names(c, j, key);
      }
    }
  }

  // ----- the operations -----

  const T_DIR := 1

  /** Broken stands for the panics: not a directory, or the file ends inside an entry. */
  datatype Found = Missing | Entry(inum: int, off: nat) | Broken

  lemma EntryBytes(c: seq<int>, k: nat, e: seq<int>)
    requires 16 * k + 16 <= |c| && e == c[16 * k..16 * k + 16]
    ensures Inum(c, k) == e[0] + 0x100 * e[1] && Name(c, k) == Key(e[2..], DIRSIZ)
  {
    assert e[2..] == c[16 * k + 2..16 * k + 16];
  }

  /** Only whole entries have an inode number. */
  lemma EntriesOnly(c: seq<int>)
    ensures forall k :: Inum(c, k) != 0 ==> 0 <= k < |c| / 16
  {
  }

  lemma SizeBound(m: Image, i: int)
    requires NoHoles(m) && 0 <= i < |m.ino|
    ensures m.ino[i].size <= MAXBYTES
  {
    assert HoleFree(m, i);
  }

  /** The first entry without an inode number; past the last if there is none. */
  ghost function FirstFree(c: seq<int>): (k: nat)
    ensures k <= |c| / 16 && Inum(c, k) == 0 && forall x :: 0 <= x < k ==> Inum(c, x) != 0
  {
    FreeFrom(c, 0)
  }

  ghost function FreeFrom(c: seq<int>, n: nat): (k: nat)
    requires n <= |c| / 16
    ensures n <= k <= |c| / 16 && Inum(c, k) == 0 && forall x :: n <= x < k ==> Inum(c, x) != 0
    decreases |c| / 16 - n
  {
    if n == |c| / 16 || Inum(c, n) == 0 then EntriesOnly(c); n else FreeFrom(c, n + 1)
  }

  lemma FirstFreeIs(c: seq<int>, k: nat)
    requires Inum(c, k) == 0 && forall x :: 0 <= x < k ==> Inum(c, x) != 0
    ensures FirstFree(c) == k
  {
    var f := FirstFree(c);
  }

  /** readi of one entry: short exactly when the file ends inside it. */
  method ReadEntry(fs: FileSys, dp: nat, off: nat) returns (ok: bool, inum: int, name: seq<int>)
    requires fs.Valid() && dp < |fs.mem| && fs.mem[dp].typ != T_DEV && off % 16 == 0 && off < fs.mem[dp].size
    modifies fs`blk, fs`mem, fs`own, fs`trace
    ensures fs.Valid() && fs.Img() == old(fs.Img()) && fs.own == old(fs.own) && fs.trace == old(fs.trace)
    ensures var c := Content(fs.Img(), dp);
            && (ok <==> off + 16 <= |c|)
            && (ok ==> inum == Inum(c, off / 16) && Key(name, DIRSIZ) == Name(c, off / 16))
  {
    hide Key, Owns, NoHoles, Content, Inum, Name;
    ghost var c := Content(fs.Img(), dp);
    SizeBound(fs.Img(), dp);
    var n, de := fs.Readi(dp, off, DIRENT);
    if n != Count(DIRENT) {
      return false, 0, [];
    }
    EntryBytes(c, off / 16, de);
    return true, de[0] + 0x100 * de[1], de[2..];
  }

  /** dirlookup: the first live entry with this name. */
  method Dirlookup(fs: FileSys, dp: nat, name: seq<int>) returns (r: Found)
    requires fs.Valid() && dp < |fs.mem|
    modifies fs`blk, fs`mem, fs`own, fs`trace
    ensures fs.Valid() && fs.Img() == old(fs.Img()) && fs.own == old(fs.own) && fs.trace == old(fs.trace)
    ensures r.Entry? <==> fs.mem[dp].typ == T_DIR && exists k :: Names(Content(fs.Img(), dp), k, Key(name, DIRSIZ))
    // it panics on a non-directory, and on a piece of an entry at the end if it gets there
    ensures r.Broken? <==> fs.mem[dp].typ != T_DIR || (!r.Entry? && |Content(fs.Img(), dp)| % 16 != 0)
    ensures r.Entry? ==>
      var c, key := Content(fs.Img(), dp), Key(name, DIRSIZ);
      && r.off % 16 == 0 && r.off + 16 <= |c|
      && Names(c, r.off / 16, key) && Inum(c, r.off / 16) == r.inum
      && forall k :: 0 <= k < r.off / 16 ==> !Names(c, k, key)
  {
    hide Key, Owns, NoHoles, Content, Inum, Name;
    if fs.mem[dp].typ != T_DIR {
      return Broken;
    }
    ghost var m, c, key := fs.Img(), Content(fs.Img(), dp), Key(name, DIRSIZ);
    EntriesOnly(c);
    var off := 0;
    while off < fs.mem[dp].size
      invariant off % 16 == 0 && 0 <= off <= |c|
      invariant fs.Valid() && fs.Img() == m && fs.own == old(fs.own) && fs.trace == old(fs.trace)
      invariant forall k :: 0 <= k < off / 16 ==> !Names(c, k, key)
    {
      var ok, inum, entry := ReadEntry(fs, dp, off);
      if !ok {
        return Broken;
      }
      if inum != 0 {
        var same := Namecmp(name, entry);
        if same {
          assert Names(c, off / 16, key);
          return Entry(inum, off);
        }
      }
      off := off + DIRENT;
    }
    return Missing;
  }

  datatype Linked = Exists | Done | Stop

  /** dirlink: refuse a bound name, otherwise use the first free entry or append one. */
  method Dirlink(fs: FileSys, dp: nat, name: seq<int>, inum: nat) returns (r: Linked)
    requires fs.Valid() && dp < |fs.mem|
    requires fs.mem[dp].typ == T_DIR ==> DirOk(Content(fs.Img(), dp))
    modifies fs`blk, fs`mem, fs`own, fs`dsk, fs`trace
    ensures r.Exists? <==>
      old(fs.mem)[dp].typ == T_DIR && exists x :: Binds(Content(old(fs.Img()), dp), Key(name, DIRSIZ), x)
    ensures r.Exists? ==>
      fs.Valid() && fs.Img() == old(fs.Img()) && fs.own == old(fs.own) && fs.dsk == old(fs.dsk) && fs.trace == old(fs.trace)
    // it panics on a non-directory, and on an unbound name exactly without room for the entry in the file or on the disk
    ensures r.Stop? <==>
      old(fs.mem)[dp].typ != T_DIR
      || (!r.Exists? &&
          var off := 16 * FirstFree(Content(old(fs.Img()), dp));
          off + 16 > MAXBYTES || !Room(fs.sb, old(fs.Img()), dp, off / 512, BlocksSpanned(off, 16)))
    ensures r.Done? ==>
      && fs.Valid() && |fs.mem| == |old(fs.mem)|
      && fs.mem[dp] == old(fs.mem)[dp].(size := fs.mem[dp].size, addrs := fs.mem[dp].addrs)
      && (forall j :: 0 <= j < |fs.mem| && j != dp ==> fs.mem[j] == old(fs.mem)[j])
      && var c, d, key0 := Content(old(fs.Img()), dp), Content(fs.Img(), dp), Key(name, DIRSIZ);
      && d == Splice(c, 16 * FirstFree(c), Dirent(inum, name))
      && DirOk(d)
      && (inum % 0x1_0000 != 0 ==> Binds(d, key0, inum % 0x1_0000))
      && (forall key, x :: key != key0 ==> (Binds(d, key, x) <==> Binds(c, key, x)))
      && (forall j :: 0 <= j < |fs.mem| && j != dp ==> Content(fs.Img(), j) == Content(old(fs.Img()), j))
  {
    hide Key, Owns, NoHoles, Content, Inum, Name, Splice, Dirent, WriteLog, Used, Frees, Room, SpanNeeds, FirstFree, Shape, FileSys.Stored;
    ghost var c, key0 := Content(fs.Img(), dp), Key(name, DIRSIZ);
    var found := Dirlookup(fs, dp, name);
    if found.Broken? {
      return Stop;
    }
    if found.Entry? {
      assert Binds(c, key0, found.inum);
      return Exists;
    }
    var off := FreeEntry(fs, dp);
    FirstFreeIs(c, off / 16);
    LinkBinds(c, off / 16, inum, name);
    var w := fs.Writei(dp, off, Dirent(inum, name));
    if w != Count(DIRENT) {
      return Stop;
    }
    return Done;
  }

  /** The offset of the first free entry, or the end of the directory. */
  method FreeEntry(fs: FileSys, dp: nat) returns (off: nat)
    requires fs.Valid() && dp < |fs.mem| && fs.mem[dp].typ == T_DIR && |Content(fs.Img(), dp)| % 16 == 0
    modifies fs`blk, fs`mem, fs`own, fs`trace
    ensures fs.Valid() && fs.Img() == old(fs.Img()) && fs.own == old(fs.own) && fs.trace == old(fs.trace)
    ensures off % 16 == 0 && off <= fs.mem[dp].size <= MAXBYTES
    ensures Inum(Content(fs.Img(), dp), off / 16) == 0
    ensures forall k :: 0 <= k < off / 16 ==> Inum(Content(fs.Img(), dp), k) != 0
  {
    hide Key, Owns, NoHoles, Content, Inum, Name;
    ghost var m, c := fs.Img(), Content(fs.Img(), dp);
    SizeBound(m, dp);
    EntriesOnly(c);
    off := 0;
    while off < fs.mem[dp].size
      invariant off % 16 == 0 && 0 <= off <= |c|
      invariant fs.Valid() && fs.Img() == m && fs.own == old(fs.own) && fs.trace == old(fs.trace)
      invariant forall k :: 0 <= k < off / 16 ==> Inum(c, k) != 0
    {
      var ok, inum, entry := ReadEntry(fs, dp, off);
      if inum == 0 {
        return off;
      }
      off := off + DIRENT;
    }
  }

  /** The write by which unlink clears the entry that dirlookup found. */
  method ClearEntry(fs: FileSys, dp: nat, off: nat) returns (ok: bool)
    requires fs.Valid() && dp < |fs.mem| && fs.mem[dp].typ == T_DIR && DirOk(Content(fs.Img(), dp))
    requires off % 16 == 0 && off + 16 <= fs.mem[dp].size && Inum(Content(fs.Img(), dp), off / 16) != 0
    modifies fs`blk, fs`mem, fs`own, fs`dsk, fs`trace
    // the panic after writei is out of reach
    ensures ok
    ensures
      && fs.Valid() && |fs.mem| == |old(fs.mem)|
      && fs.mem[dp] == old(fs.mem)[dp].(size := fs.mem[dp].size, addrs := fs.mem[dp].addrs)
      && (forall j :: 0 <= j < |fs.mem| && j != dp ==> fs.mem[j] == old(fs.mem)[j])
      && var c, d, key0 := Content(old(fs.Img()), dp), Content(fs.Img(), dp), Name(Content(old(fs.Img()), dp), off / 16);
      && d == Splice(c, off, Zeros(16))
      && DirOk(d)
      && (forall x :: !Binds(d, key0, x))
      && (forall key, x :: key != key0 ==> (Binds(d, key, x) <==> Binds(c, key, x)))
      && (forall j :: 0 <= j < |fs.mem| && j != dp ==> Content(fs.Img(), j) == Content(old(fs.Img()), j))
  {
    hide Key, Owns, NoHoles, Content, Inum, Name, Splice, WriteLog, Frees, SpanNeeds, Shape, Used, FileSys.Stored;
    SizeBound(fs.Img(), dp);
    UnlinkBinds(Content(fs.Img(), dp), off / 16);
    OverwriteNeeds(fs.Img(), dp, off, DIRENT);
    var w := fs.Writei(dp, off, Zeros(DIRENT));
    return w == Count(DIRENT);
  }
}
