/** mkfs/mkfs.c: the image it writes for a list of files, and when the kernel's file system finds it in
    order. */
module Mkfs {
  import opened FsBytes
  import opened FsVolume
  import opened FsMap
  import opened FsWrite
  import opened FsCode
  import opened MkfsLayout

  const ROOTINO: nat := 1
  const DOT: seq<byte> := [46]
  const DOTDOT: seq<byte> := [46, 46]
  const DIRSIZ: nat := 14

  /** A file to store: the name after the directory and the leading underscore are gone, and the bytes. */
  datatype File = File(name: seq<byte>, data: seq<byte>)

  function Zero(n: nat): (z: seq<byte>)
    ensures |z| == n && forall k :: 0 <= k < n ==> z[k] == 0
  {
    seq(n, _ => 0)
  }

  /** strncpy(): cut to DIRSIZ bytes or padded with zeroes. */
  function Padded(name: seq<byte>): (r: seq<byte>)
    ensures |r| == DIRSIZ
  {
    if |name| >= DIRSIZ then name[..DIRSIZ] else name + Zero(DIRSIZ - |name|)
  }

  /** A struct dirent. */
  function DirEntry(inum: nat, name: seq<byte>): (r: seq<byte>)
    ensures |r| == 16
  {
    [Low(inum), Low(inum / 256)] + Padded(name)
  }

  /** What the root directory should hold: "." and "..", then the files, which get inodes 2, 3, ... */
  function Listing(files: seq<File>): (r: seq<byte>)
    ensures |r| == 16 * (|files| + 2)
  {
    if files == [] then DirEntry(ROOTINO, DOT) + DirEntry(ROOTINO, DOTDOT)
    else Listing(files[..|files| - 1]) + DirEntry(|files| + 1, files[|files| - 1].name)
  }

  // ---- appending ------------------------------------------------------------------------------------

  predicate TailAt(disk: seq<Block>, ino: seq<Inode>, j: nat, k: nat) {
    j < |ino| && ino[j].size <= k ==> ByteAt(disk, ino[j], k) == 0
  }

  predicate SizeAt(ino: seq<Inode>, from: nat, j: nat) {
    j < |ino| ==> ino[j].size <= MAXFILE * BSIZE && (from <= j ==> ino[j] == Empty())
  }

  /** Blocks are mapped up to the size and no further, the bytes behind the size are zero, and inodes
      from `next` on are empty. */
  ghost predicate Tidy(disk: seq<Block>, ino: seq<Inode>, next: nat) {
    && Exact(disk, ino, |ino|, 0)
    && (forall j: nat, k: nat {:trigger TailAt(disk, ino, j, k)} :: TailAt(disk, ino, j, k))
    && (forall j: nat {:trigger SizeAt(ino, next, j)} :: SizeAt(ino, next, j))
  }

  lemma ResizedNames(g: Geo, disk: seq<Block>, ino: seq<Inode>, own: map<nat, Slot>, i: nat, z: nat)
    requires NamesOk(g, disk, ino, own) && i < |ino|
    ensures NamesOk(g, disk, ino[i := ino[i].(size := z)], own)
  {
    var ino' := ino[i := ino[i].(size := z)];
    forall b: nat ensures OwnedAt(g, disk, ino', own, b) { assert OwnedAt(g, disk, ino, own, b); }
    forall x: Slot ensures NamedAt(disk, ino', own, x) { assert NamedAt(disk, ino, own, x); }
  }

  lemma ExactFor(disk: seq<Block>, ino: seq<Inode>, i: nat)
    requires Exact(disk, ino, |ino|, 0) && i < |ino|
    ensures Exact(disk, ino, i, ino[i].size)
  {
    var z := ino[i].size;
    forall j: nat, m: nat ensures ExactAt(disk, ino, i, z, j, m) { assert ExactAt(disk, ino, |ino|, 0, j, m); }
  }

  /** The inode is written back with its new size. */
  lemma Appended(d0: seq<Block>, i0: seq<Inode>, d1: seq<Block>, i1: seq<Inode>, next: nat, i: nat, p: seq<byte>)
    requires Tidy(d0, i0, next) && i < next && i < |i0| && i0[i].size + |p| <= MAXFILE * BSIZE
    requires Wrote(d0, i0, d1, i1, i, i0[i].size, i0[i].size + |p|, p) && Exact(d1, i1, i, i0[i].size + |p|)
    ensures var i2 := i1[i := i1[i].(size := i0[i].size + |p|)];
            Tidy(d1, i2, next) && Content(d1, i2[i]) == Content(d0, i0[i]) + p && OthersSame(d0, i0, d1, i2, i)
  {
    var off := i0[i].size;
    var e := off + |p|;
    var i2 := i1[i := i1[i].(size := e)];
    forall j: nat, m: nat ensures ExactAt(d1, i2, |i2|, 0, j, m) { assert ExactAt(d1, i1, i, e, j, m); }
    forall j: nat, k: nat ensures TailAt(d1, i2, j, k) {
      assert WroteAt(d0, i0, d1, i1, i, off, e, p, j, k) && TailAt(d0, i0, j, k);
      SameAddrs(d1, i1, i2, i, j, k);
    }
    forall j: nat ensures SizeAt(i2, next, j) { assert SizeAt(i0, next, j); }
    forall j: nat | j != i ensures SameAt(d0, i0, d1, i2, j) {
      forall k: nat | j < |i0| && k < i0[j].size ensures ByteAt(d1, i2[j], k) == ByteAt(d0, i0[j], k) {
        assert WroteAt(d0, i0, d1, i1, i, off, e, p, j, k);
      }
    }
    forall k: nat | k < e ensures ByteAt(d1, i2[i], k) == (Content(d0, i0[i]) + p)[k] {
      assert WroteAt(d0, i0, d1, i1, i, off, e, p, i, k);
      SameAddrs(d1, i1, i2, i, i, k);
    }
  }

  lemma SameAddrs(disk: seq<Block>, ino: seq<Inode>, ino': seq<Inode>, i: nat, j: nat, k: nat)
    requires i < |ino| == |ino'| && ino' == ino[i := ino[i].(size := ino'[i].size)]
    ensures j < |ino| ==> ByteAt(disk, ino'[j], k) == ByteAt(disk, ino[j], k)
  {
  }

  /** One round of iappend(): block x is mapped, then the piece goes into it. */
  lemma RoundDone(g: Geo, d0: seq<Block>, i0: seq<Inode>, d1: seq<Block>, i1: seq<Inode>, own: map<nat, Slot>,
                  fb: nat, i: nat, x: nat, o: nat, piece: seq<byte>)
    requires Laid(g, d1, i1, own, fb) && i < |i0| && o / BSIZE < MAXFILE && o % BSIZE + |piece| <= BSIZE && 0 < |piece|
    requires Mapped(d0, i0, d1, i1, Data(i, o / BSIZE), x) && x != 0 && Exact(d0, i0, i, o)
    ensures x < |d1|
    ensures var d2 := d1[x := Patched(d1[x], o % BSIZE, piece)];
            && Laid(g, d2, i1, own, fb) && Exact(d2, i1, i, o + |piece|)
            && Wrote(d0, i0, d2, i1, i, o, o + |piece|, piece)
  {
    assert AddrIs(d0, i0, d1, i1, Data(i, o / BSIZE), x, i, o / BSIZE);
    Copies(g, d1, i1, own, fb, i, x, o, piece);
    var d2 := d1[x := Patched(d1[x], o % BSIZE, piece)];
    RoundBytes(d0, i0, d1, i1, d2, i, x, o, piece);
  }

  lemma RoundBytes(d0: seq<Block>, i0: seq<Inode>, d1: seq<Block>, i1: seq<Inode>, d2: seq<Block>, i: nat, x: nat,
                   o: nat,
                   piece: seq<byte>)
    requires Mapped(d0, i0, d1, i1, Data(i, o / BSIZE), x) && x != 0 && Exact(d0, i0, i, o) && 0 < |piece|
    requires Wrote(d1, i1, d2, i1, i, o, o + |piece|, piece) && Unmoving(d1, i1, d2, i1, i)
             && o % BSIZE + |piece| <= BSIZE
    ensures Wrote(d0, i0, d2, i1, i, o, o + |piece|, piece) && Exact(d2, i1, i, o + |piece|)
  {
    MappedWrote(d0, i0, d1, i1, d2, Data(i, o / BSIZE), x, o, o + |piece|, piece);
    ExactOn(d0, i0, d1, i1, d2, i, o, |piece|, x);
  }

  /** Every round of iappend() but the first and the last fills a block. */
  predicate Steps(o: nat, tot: nat, n: nat, rounds: nat) {
    && tot <= n && 1024 * rounds <= tot + 2048
    && (tot < n && rounds > 0 ==> o % 1024 == 0 && 1024 * rounds <= tot + 1024)
  }

  lemma NextStep(o: nat, tot: nat, n: nat, rounds: nat)
    requires Steps(o, tot, n, rounds) && tot < n
    ensures rounds < n / 1024 + 2
    ensures var m := Min(n - tot, BSIZE - o % BSIZE);
            && 0 < m && o % BSIZE + m <= BSIZE && Steps(o + m, tot + m, n, rounds + 1)
            && (o / BSIZE < MAXFILE ==> o + m <= MAXFILE * BSIZE)
  {
    var m := Min(n - tot, BSIZE - o % BSIZE);
    if m == BSIZE - o % BSIZE { assert o + m == (o / 1024 + 1) * 1024; }
  }

  // ---- a list of files ---------------------------------------------------------------------------------

  predicate FileAt(disk: seq<Block>, ino: seq<Inode>, files: seq<File>, n: nat, k: nat) {
    k < n <= |files| && k + 2 < |ino| ==> Content(disk, ino[k + 2]) == files[k].data
  }

  /** The root lists the first n files, and their inodes hold them. */
  ghost predicate Holds(disk: seq<Block>, ino: seq<Inode>, files: seq<File>, n: nat) {
    && ROOTINO < |ino| && n <= |files| && n + 2 <= |ino| && Content(disk, ino[ROOTINO]) == Listing(files[..n])
    && forall k: nat {:trigger FileAt(disk, ino, files, n, k)} :: FileAt(disk, ino, files, n, k)
  }

  lemma HoldsNone(disk: seq<Block>, ino: seq<Inode>, files: seq<File>)
    requires 2 <= |ino| && Content(disk, ino[ROOTINO]) == DirEntry(ROOTINO, DOT) + DirEntry(ROOTINO, DOTDOT)
    ensures Holds(disk, ino, files, 0)
  {
    assert files[..0] == [];
    forall k: nat ensures FileAt(disk, ino, files, 0, k) {}
  }

  lemma ListingNext(files: seq<File>, n: nat)
    requires n < |files|
    ensures Listing(files[..n + 1]) == Listing(files[..n]) + DirEntry(n + 2, files[n].name)
  {
    var m := files[..n + 1];
    assert m[..n] == files[..n] && m[n] == files[n];
  }

  lemma HoldsMore(d0: seq<Block>, i0: seq<Inode>, d1: seq<Block>, i1: seq<Inode>, d2: seq<Block>, i2: seq<Inode>,
                  files: seq<File>, n: nat)
    requires Holds(d0, i0, files, n) && n < |files| && n + 2 < |i0| == |i1| == |i2|
    requires OthersSame(d0, i0, d1, i1, ROOTINO) && OthersSame(d1, i1, d2, i2, n + 2)
    requires Content(d1, i1[ROOTINO]) == Listing(files[..n]) + DirEntry(n + 2, files[n].name)
    requires Content(d2, i2[n + 2]) == files[n].data
    ensures Holds(d2, i2, files, n + 1)
  {
    var m := n + 1;
    ListingNext(files, n);
    assert SameAt(d1, i1, d2, i2, ROOTINO);
    forall k: nat ensures FileAt(d2, i2, files, m, k) {
      assert FileAt(d0, i0, files, n, k) && SameAt(d0, i0, d1, i1, k + 2) && (k != n ==> SameAt(d1, i1, d2, i2, k + 2));
    }
  }

  function Chunks(n: nat): nat { (n + 1023) / 1024 }

  /** Enough blocks for the files. */
  function Need(files: seq<File>): nat {
    if files == [] then 8 else Need(files[..|files| - 1]) + 4 + 6 * Chunks(|files[|files| - 1].data|)
  }

  predicate DataFits(files: seq<File>) { forall k :: 0 <= k < |files| ==> |files[k].data| <= MAXFILE * BSIZE }

  predicate OneFits(g: Geo, files: seq<File>, n: nat)
    requires n < |files|
  {
    n + 3 <= g.ninodes && 16 * (n + 3) <= MAXFILE * BSIZE && |files[n].data| <= MAXFILE * BSIZE
  }

  predicate Fits(g: Geo, files: seq<File>) {
    && g.Meta() + Need(files) <= g.size && g.Meta() + Need(files) < BPB && |files| + 2 <= g.ninodes
    && 16 * (|files| + 2) <= MAXFILE * BSIZE && DataFits(files)
  }

  lemma {:induction false} NeedPrefix(files: seq<File>, n: nat)
    requires n <= |files|
    ensures Need(files[..n]) <= Need(files)
    decreases |files| - n
  {
    if n < |files| {
      NeedNext(files, n);
      NeedPrefix(files, n + 1);
    } else {
      assert files[..n] == files;
    }
  }

  lemma NeedNext(files: seq<File>, n: nat)
    requires n < |files|
    ensures Need(files[..n + 1]) == Need(files[..n]) + 4 + 6 * Chunks(|files[n].data|)
  {
    var m := files[..n + 1];
    assert m[..n] == files[..n] && m[n] == files[n];
  }

  lemma SameSelf(disk: seq<Block>, ino: seq<Inode>, i: nat)
    ensures OthersSame(disk, ino, disk, ino, i)
  {
    forall j: nat | j != i ensures SameAt(disk, ino, disk, ino, j) {}
  }

  // ---- the free map, and the size of the root -----------------------------------------------------------

  lemma NoBits()
    ensures forall j: nat {:trigger Bit(Zeroes(), j)} :: j < BPB ==> !Bit(Zeroes(), j)
  {
  }

  /** balloc(freeblock) marks the metadata and the blocks handed out, and changes no file. */
  lemma Marked(g: Geo, disk: seq<Block>, ino: seq<Inode>, own: map<nat, Slot>, fb: nat, buf: Block)
    requires Laid(g, disk, ino, own, fb) && fb < BPB
    requires forall j: nat {:trigger Bit(buf, j)} :: j < BPB ==> (Bit(buf, j) <==> j < fb)
    ensures NamesOk(g, disk[g.bmapstart := buf], ino, own) && BitsOk(g, disk[g.bmapstart := buf], own.Keys)
    ensures Mapped(disk, ino, disk[g.bmapstart := buf], ino, Ind(0), 0)
  {
    var b := g.bmapstart;
    var disk' := disk[b := buf];
    assert GivenAt(g, own, fb, b);
    WriteKeepsNames(g, disk, ino, own, b, buf);
    NoBits();
    forall c: nat ensures BitAt(g, disk', own.Keys, c) {
      assert GivenAt(g, own, fb, c) && BlankAt(g, disk, fb, g.BitBlock(c));
    }
    forall j: nat, m: nat ensures AddrIs(disk, ino, disk', ino, Ind(0), 0, j, m) {
      if j < |ino| && m < MAXFILE { NameElsewhere(g, disk, ino, own, b, buf, Data(j, m)); }
    }
    forall j: nat, k: nat ensures SameByte(disk, ino, disk', ino, j, k) {
      assert AddrIs(disk, ino, disk', ino, Ind(0), 0, j, k / BSIZE);
      if j < |ino| && k / BSIZE < MAXFILE { NamedIsOwned(g, disk, ino, own, Data(j, k / BSIZE)); }
    }
  }

  lemma MarkedTidy(d0: seq<Block>, d1: seq<Block>, ino: seq<Inode>, next: nat)
    requires Tidy(d0, ino, next) && Mapped(d0, ino, d1, ino, Ind(0), 0)
    ensures Tidy(d1, ino, next)
    ensures forall j: nat {:trigger Content(d1, ino[j])} :: j < |ino| ==> Content(d1, ino[j]) == Content(d0, ino[j])
  {
    forall j: nat, m: nat ensures ExactAt(d1, ino, |ino|, 0, j, m) {
      assert ExactAt(d0, ino, |ino|, 0, j, m) && AddrIs(d0, ino, d1, ino, Ind(0), 0, j, m);
    }
    forall j: nat, k: nat ensures TailAt(d1, ino, j, k) {
      assert TailAt(d0, ino, j, k) && SameByte(d0, ino, d1, ino, j, k);
    }
    forall j: nat | j < |ino| ensures Content(d1, ino[j]) == Content(d0, ino[j]) {
      forall k: nat | k < ino[j].size ensures ByteAt(d1, ino[j], k) == ByteAt(d0, ino[j], k) {
        assert SameByte(d0, ino, d1, ino, j, k);
      }
    }
  }

  /** The size mkfs gives the root in the end: the next multiple of BSIZE above the one it has. */
  function RootSize(n: nat): nat { (n / 1024 + 1) * 1024 }

  /** Rounding the size up leaves the root well mapped unless the size was a multiple already. */
  lemma Rounded(disk: seq<Block>, ino: seq<Inode>, next: nat)
    requires Tidy(disk, ino, next) && ROOTINO < |ino|
    ensures var n := ino[ROOTINO].size;
            var ino' := ino[ROOTINO := ino[ROOTINO].(size := RootSize(n))];
            && (InodesOk(disk, ino') <==> n % 1024 != 0)
            && Content(disk, ino'[ROOTINO]) == Content(disk, ino[ROOTINO]) + Zero(RootSize(n) - n)
  {
    var n := ino[ROOTINO].size;
    var ino' := ino[ROOTINO := ino[ROOTINO].(size := RootSize(n))];
    forall k: nat | n <= k < RootSize(n) ensures ByteAt(disk, ino'[ROOTINO], k) == 0 {
      assert TailAt(disk, ino, ROOTINO, k);
    }
    assert SizeAt(ino, next, ROOTINO);
    if n % 1024 == 0 {
      assert ExactAt(disk, ino, |ino|, 0, ROOTINO, n / 1024);
      assert !MappedAt(disk, ino'[ROOTINO], n / 1024) || RootSize(n) > MAXFILE * BSIZE;
      assert !InodeOk(disk, ino'[ROOTINO]);
    } else {
      forall i: nat | i < |ino'| ensures InodeOk(disk, ino'[i]) {
        assert SizeAt(ino, next, i);
        forall m: nat ensures MappedAt(disk, ino'[i], m) {
          assert ExactAt(disk, ino, |ino|, 0, i, m);
          if i == ROOTINO && m * 1024 < RootSize(n) { UpToSize(n, m); }
        }
      }
    }
  }

  /** The finished image holds the files: the root lists them, behind them come free entries. */
  ghost predicate Stored(disk: seq<Block>, ino: seq<Inode>, files: seq<File>) {
    var n := 16 * (|files| + 2);
    && |files| + 2 <= |ino| && n <= MAXFILE * BSIZE
    && Content(disk, ino[ROOTINO]) == Listing(files) + Zero(RootSize(n) - n)
    && (forall k: nat {:trigger FileAt(disk, ino, files, |files|, k)} :: FileAt(disk, ino, files, |files|, k))
    && (forall m: nat {:trigger RootAt(disk, ino, n, m)} :: RootAt(disk, ino, n, m))
  }

  /** The root has blocks for its n bytes of entries and no more. */
  predicate RootAt(disk: seq<Block>, ino: seq<Inode>, n: nat, m: nat) {
    ROOTINO < |ino| && m < MAXFILE ==> (Addr(disk, ino[ROOTINO], m) != 0 <==> m * 1024 < n)
  }

  lemma HoldsKept(d0: seq<Block>, d1: seq<Block>, ino: seq<Inode>, files: seq<File>)
    requires Holds(d0, ino, files, |files|)
    requires forall j: nat {:trigger Content(d1, ino[j])} :: j < |ino| ==> Content(d1, ino[j]) == Content(d0, ino[j])
    ensures Holds(d1, ino, files, |files|)
  {
    var n := |files|;
    forall k: nat ensures FileAt(d1, ino, files, n, k) { assert FileAt(d0, ino, files, n, k); }
  }

  lemma Finished(g: Geo, disk: seq<Block>, ino: seq<Inode>, own: map<nat, Slot>, next: nat, files: seq<File>)
    requires NamesOk(g, disk, ino, own) && Tidy(disk, ino, next) && Holds(disk, ino, files, |files|)
    ensures var ino' := ino[ROOTINO := ino[ROOTINO].(size := RootSize(ino[ROOTINO].size))];
            && NamesOk(g, disk, ino', own) && (InodesOk(disk, ino') <==> (|files| + 2) * 16 % BSIZE != 0)
            && Stored(disk, ino', files)
  {
    var n := ino[ROOTINO].size;
    var ino' := ino[ROOTINO := ino[ROOTINO].(size := RootSize(n))];
    assert NamesOk(g, disk, ino', own) by { ResizedNames(g, disk, ino, own, ROOTINO, RootSize(n)); }
    assert n == (|files| + 2) * 16 by { RootLength(disk, ino, files); }
    Rounded(disk, ino, next);
    assert Stored(disk, ino', files) by { RootStored(disk, ino, next, files, ino'); }
  }

  lemma RootStored(disk: seq<Block>, ino: seq<Inode>, next: nat, files: seq<File>, ino': seq<Inode>)
    requires Tidy(disk, ino, next) && Holds(disk, ino, files, |files|)
    requires var n := ino[ROOTINO].size;
             && ino' == ino[ROOTINO := ino[ROOTINO].(size := RootSize(n))]
             && Content(disk, ino'[ROOTINO]) == Content(disk, ino[ROOTINO]) + Zero(RootSize(n) - n)
    ensures Stored(disk, ino', files)
  {
    var n := ino[ROOTINO].size;
    RootLength(disk, ino, files);
    assert SizeAt(ino, next, ROOTINO);
    forall k: nat ensures FileAt(disk, ino', files, |files|, k) { assert FileAt(disk, ino, files, |files|, k); }
    forall m: nat ensures RootAt(disk, ino', n, m) { assert ExactAt(disk, ino, |ino|, 0, ROOTINO, m); }
  }

  lemma RootLength(disk: seq<Block>, ino: seq<Inode>, files: seq<File>)
    requires Holds(disk, ino, files, |files|)
    ensures Content(disk, ino[ROOTINO]) == Listing(files) && ino[ROOTINO].size == 16 * (|files| + 2)
  {
    assert files[..|files|] == files;
    assert |Content(disk, ino[ROOTINO])| == ino[ROOTINO].size;
  }

  lemma UpToSize(n: nat, m: nat)
    requires n % 1024 != 0 && m * 1024 < RootSize(n)
    ensures m * 1024 < n
  {
  }

  class Image {
    const g: Geo
    var disk: seq<Block>
    var ino: seq<Inode>
    var freeblock: nat
    var freeinode: nat
    ghost var own: map<nat, Slot>

    ghost predicate Clean()
      reads this
    {
      Laid(g, disk, ino, own, freeblock) && |ino| == g.ninodes && freeinode <= |ino| && Tidy(disk, ino, freeinode)
    }

    /** All blocks zero, all inodes free; inode 0 is never handed out. */
    constructor (geo: Geo)
      requires geo.Ok() && 0 < geo.ninodes
      ensures Clean() && g == geo && freeblock == geo.Meta() && freeinode == 1
    {
      g, disk, ino := geo, seq(geo.size, _ => Zeroes()), seq(geo.ninodes, _ => Empty());
      freeblock, freeinode, own := geo.Meta(), 1, map[];
      new;
      forall x: Slot ensures NamedAt(disk, ino, own, x) {}
      forall j: nat, m: nat ensures ExactAt(disk, ino, |ino|, 0, j, m) {}
      forall j: nat, k: nat ensures TailAt(disk, ino, j, k) {}
    }

    /** The lines of iappend() that find block fbn of inode i, or hand out a new one. */
    method MapBlock(i: nat, fbn: nat) returns (ok: bool, x: nat)
      requires Laid(g, disk, ino, own, freeblock) && i < |ino| && fbn < MAXFILE
      modifies `disk, `ino, `freeblock, `own
      ensures old(freeblock) <= freeblock <= old(freeblock) + 2
      ensures old(freeblock) + 2 <= g.size ==> ok
      ensures ok ==>
                Laid(g, disk, ino, own, freeblock) && Mapped(old(disk), old(ino), disk, ino, Data(i, fbn), x) && x != 0
    {
      ok, x := true, 0;
      if fbn < NDIRECT {
        if ino[i].addrs[fbn] == 0 {
          if freeblock >= g.size { ok := false; return; }
          MapDirect(g, disk, ino, own, freeblock, i, fbn);
          own := own[freeblock := Data(i, fbn)];
          ino, freeblock := SetAddr(ino, i, fbn, freeblock), freeblock + 1;
        } else {
          MapStays(disk, ino, i, fbn);
        }
        x := ino[i].addrs[fbn];
      } else {
        ok, x := MapFar(i, fbn);
      }
    }

    /** ... behind the direct blocks: the indirect block ... */
    method MapTable(i: nat) returns (ok: bool, ghost c: nat)
      requires Laid(g, disk, ino, own, freeblock) && i < |ino|
      modifies `ino, `freeblock, `own
      ensures old(freeblock) <= freeblock <= old(freeblock) + 1
      ensures old(freeblock) + 1 <= g.size ==> ok
      ensures ok ==> Laid(g, disk, ino, own, freeblock) && Mapped(disk, old(ino), disk, ino, Ind(i), c)
      ensures ok ==> ino[i].addrs[NDIRECT] != 0
    {
      ok, c := true, 0;
      if ino[i].addrs[NDIRECT] == 0 {
        if freeblock >= g.size { ok := false; return; }
        MapIndirect(g, disk, ino, own, freeblock, i);
        c := freeblock;
        own := own[freeblock := Ind(i)];
        ino, freeblock := SetAddr(ino, i, NDIRECT, freeblock), freeblock + 1;
      } else {
        Unmoved(disk, ino, i);
      }
    }

    /** ... and its entry. */
    method MapSlot(i: nat, fbn: nat) returns (ok: bool, x: nat)
      requires Laid(g, disk, ino, own, freeblock) && i < |ino| && NDIRECT <= fbn < MAXFILE && ino[i].addrs[NDIRECT] != 0
      modifies `disk, `freeblock, `own
      ensures old(freeblock) <= freeblock <= old(freeblock) + 1
      ensures old(freeblock) + 1 <= g.size ==> ok
      ensures ok ==> Laid(g, disk, ino, own, freeblock) && Mapped(old(disk), ino, disk, ino, Data(i, fbn), x) && x != 0
    {
      ok, x := true, Addr(disk, ino[i], fbn);
      if x == 0 {
        if freeblock >= g.size { ok := false; return; }
        NamedIsOwned(g, disk, ino, own, Ind(i));
        var ind := ino[i].addrs[NDIRECT];
        var table := StoreWord(disk[ind], fbn - NDIRECT, freeblock);
        MapEntry(g, disk, ino, own, freeblock, i, fbn, table);
        own := own[freeblock := Data(i, fbn)];
        x := freeblock;
        disk, freeblock := disk[ind := table], freeblock + 1;
      } else {
        MapStays(disk, ino, i, fbn);
      }
    }

    method MapFar(i: nat, fbn: nat) returns (ok: bool, x: nat)
      requires Laid(g, disk, ino, own, freeblock) && i < |ino| && NDIRECT <= fbn < MAXFILE
      modifies `disk, `ino, `freeblock, `own
      ensures old(freeblock) <= freeblock <= old(freeblock) + 2
      ensures old(freeblock) + 2 <= g.size ==> ok
      ensures ok ==>
                Laid(g, disk, ino, own, freeblock) && Mapped(old(disk), old(ino), disk, ino, Data(i, fbn), x) && x != 0
    {
      ghost var c;
      ok, c := MapTable(i);
      x := 0;
      if !ok { return; }
      ghost var d1, i1 := disk, ino;
      ok, x := MapSlot(i, fbn);
      if ok { MappedOn(old(disk), old(ino), d1, i1, disk, ino, Data(i, fbn), x, c); }
    }

    /** iappend(); `ok` is false where an assertion fails or the image is full. */
    method Iappend(i: nat, p: seq<byte>) returns (ok: bool)
      requires Clean() && i < freeinode
      modifies `disk, `ino, `freeblock, `own
      ensures old(freeblock) <= freeblock <= old(freeblock) + 2 * (|p| / 1024 + 2)
      ensures old(freeblock) + 2 * (|p| / 1024 + 2) <= g.size && old(ino[i].size) + |p| <= MAXFILE * BSIZE ==> ok
      ensures ok ==> Clean() && |ino| == |old(ino)| && Content(disk, ino[i]) == old(Content(disk, ino[i])) + p
      ensures ok ==> OthersSame(old(disk), old(ino), disk, ino, i)
    {
      assert SizeAt(ino, freeinode, i);
      ExactFor(disk, ino, i);
      var o := ino[i].size + |p|;
      ok := AppendAll(i, p);
      if !ok { return; }
      Appended(old(disk), old(ino), disk, ino, freeinode, i, p);
      ResizedNames(g, disk, ino, own, i, o);
      ino := ino[i := ino[i].(size := o)];
    }

    /** The bytes off..o of file i are in place. */
    ghost predicate Appending(i: nat, off: nat, o: nat, p: seq<byte>, d0: seq<Block>, i0: seq<Inode>)
      reads this
    {
      && Laid(g, disk, ino, own, freeblock) && i < |ino| && Exact(disk, ino, i, o)
      && Wrote(d0, i0, disk, ino, i, off, o, p)
    }

    /** Its loop. */
    method AppendAll(i: nat, p: seq<byte>) returns (ok: bool)
      requires Laid(g, disk, ino, own, freeblock) && i < |ino| && Exact(disk, ino, i, ino[i].size)
               && ino[i].size <= MAXFILE * BSIZE
      modifies `disk, `ino, `freeblock, `own
      ensures old(freeblock) <= freeblock <= old(freeblock) + 2 * (|p| / 1024 + 2)
      ensures old(freeblock) + 2 * (|p| / 1024 + 2) <= g.size && old(ino[i].size) + |p| <= MAXFILE * BSIZE ==> ok
      ensures var off := old(ino[i].size);
              ok ==>
                && Laid(g, disk, ino, own, freeblock) && off + |p| <= MAXFILE * BSIZE && Exact(disk, ino, i, off + |p|)
                && Wrote(old(disk), old(ino), disk, ino, i, off, off + |p|, p)
    {
      ok := true;
      ghost var off, rounds := ino[i].size, 0;
      var o, tot := ino[i].size, 0;
      NothingWrote(disk, ino, i, o, p);
      while tot < |p|
        invariant o == off + tot && o <= MAXFILE * BSIZE && Steps(o, tot, |p|, rounds)
        invariant Appending(i, off, o, p, old(disk), old(ino))
        invariant old(freeblock) <= freeblock <= old(freeblock) + 2 * rounds
      {
        var n1;
        ok, n1 := AppendNext(i, off, o, tot, p, rounds, old(disk), old(ino));
        rounds := rounds + 1;
        if !ok { return; }
        o, tot := o + n1, tot + n1;
      }
    }

    /** One turn of its loop, seen from the whole append. */
    method AppendNext(i: nat, ghost off: nat, o: nat, tot: nat, p: seq<byte>, ghost rounds: nat, ghost d0: seq<Block>,
                      ghost i0: seq<Inode>) returns (ok: bool, n1: nat)
      requires Appending(i, off, o, p, d0, i0) && o == off + tot && tot < |p| && Steps(o, tot, |p|, rounds)
      modifies `disk, `ino, `freeblock, `own
      ensures rounds < |p| / 1024 + 2 && Steps(o + n1, tot + n1, |p|, rounds + 1) && 0 < n1
      ensures old(freeblock) <= freeblock <= old(freeblock) + 2
      ensures old(freeblock) + 2 <= g.size && off + |p| <= MAXFILE * BSIZE ==> ok
      ensures ok ==> Appending(i, off, o + n1, p, d0, i0) && o + n1 <= MAXFILE * BSIZE
    {
      NextStep(o, tot, |p|, rounds);
      n1 := Min(|p| - tot, BSIZE - o % BSIZE);
      if o / BSIZE >= MAXFILE { return false, n1; }
      var piece := p[tot..tot + n1];
      ok := AppendOne(i, o, piece);
      if ok { WroteOn(d0, i0, old(disk), old(ino), disk, ino, i, off, o, o + n1, p, piece); }
    }

    /** One round of its loop: the piece goes to offset o of file i. */
    method AppendOne(i: nat, o: nat, piece: seq<byte>) returns (ok: bool)
      requires Laid(g, disk, ino, own, freeblock) && i < |ino| && Exact(disk, ino, i, o)
      requires 0 < |piece| && o / BSIZE < MAXFILE && o % BSIZE + |piece| <= BSIZE
      modifies `disk, `ino, `freeblock, `own
      ensures old(freeblock) <= freeblock <= old(freeblock) + 2
      ensures old(freeblock) + 2 <= g.size ==> ok
      ensures ok ==> Laid(g, disk, ino, own, freeblock) && Exact(disk, ino, i, o + |piece|)
      ensures ok ==> Wrote(old(disk), old(ino), disk, ino, i, o, o + |piece|, piece)
    {
      var x;
      ok, x := MapBlock(i, o / BSIZE);
      if !ok { return; }
      RoundDone(g, old(disk), old(ino), disk, ino, own, freeblock, i, x, o, piece);
      disk := disk[x := Patched(disk[x], o % BSIZE, piece)];
    }

    /** ialloc() */
    method Ialloc() returns (ok: bool, inum: nat)
      requires Clean()
      modifies `freeinode
      ensures ok <==> old(freeinode) < g.ninodes
      ensures ok ==> Clean() && inum == old(freeinode) && freeinode == inum + 1 && Content(disk, ino[inum]) == []
    {
      ok, inum := freeinode < g.ninodes, freeinode;
      if !ok { return; }
      assert SizeAt(ino, freeinode, inum);
      freeinode := freeinode + 1;
      forall j: nat ensures SizeAt(ino, freeinode, j) { assert SizeAt(ino, old(freeinode), j); }
    }

    /** The loop that reads a file BSIZE bytes at a time and appends them. */
    method AppendFile(i: nat, data: seq<byte>) returns (ok: bool)
      requires Clean() && i < freeinode && Content(disk, ino[i]) == []
      modifies `disk, `ino, `freeblock, `own
      ensures old(freeblock) <= freeblock <= old(freeblock) + 6 * Chunks(|data|)
      ensures old(freeblock) + 6 * Chunks(|data|) <= g.size && |data| <= MAXFILE * BSIZE ==> ok
      ensures ok ==>
                Clean() && |ino| == |old(ino)| && Content(disk, ino[i]) == data
                && OthersSame(old(disk), old(ino), disk, ino, i)
    {
      ok := true;
      var pos := 0;
      ghost var k := 0;
      SameSelf(disk, ino, i);
      while pos < |data|
        invariant pos <= |data| && (pos == |data| || pos == 1024 * k) && k <= Chunks(|data|)
                  && (pos < |data| ==> k < Chunks(|data|))
        invariant Clean() && |ino| == |old(ino)| && Content(disk, ino[i]) == data[..pos]
                  && OthersSame(old(disk), old(ino), disk, ino, i)
        invariant old(freeblock) <= freeblock <= old(freeblock) + 6 * k
      {
        var cc := Min(|data| - pos, BSIZE);
        ghost var d1, i1 := disk, ino;
        k := k + 1;
        ok := Iappend(i, data[pos..pos + cc]);
        if !ok { return; }
        SameOn(old(disk), old(ino), d1, i1, disk, ino, i);
        assert data[..pos] + data[pos..pos + cc] == data[..pos + cc];
        pos := pos + cc;
      }
    }

    /** One turn of the loop of main(): file n gets inode n + 2, a root entry and its bytes. */
    method AddFile(files: seq<File>, n: nat) returns (ok: bool)
      requires Clean() && Holds(disk, ino, files, n) && n < |files| && freeinode == n + 2
      modifies `disk, `ino, `freeblock, `freeinode, `own
      ensures old(freeblock) <= freeblock <= old(freeblock) + 4 + 6 * Chunks(|files[n].data|)
      ensures ok ==> Clean() && Holds(disk, ino, files, n + 1) && freeinode == n + 3
      ensures old(freeblock) + 4 + 6 * Chunks(|files[n].data|) <= g.size && OneFits(g, files, n) ==> ok
    {
      var inum;
      ok, inum := Ialloc();
      if !ok { return; }
      ok := Iappend(ROOTINO, DirEntry(inum, files[n].name));
      if !ok { return; }
      ghost var d1, i1 := disk, ino;
      assert SameAt(old(disk), old(ino), disk, ino, inum);
      ok := AppendFile(inum, files[n].data);
      if ok { HoldsMore(old(disk), old(ino), d1, i1, disk, ino, files, n); }
    }

    /** The bits of mkfs's balloc(). */
    static method BitsBelow(used: nat) returns (buf: Block)
      requires used < BPB
      ensures forall j: nat {:trigger Bit(buf, j)} :: j < BPB ==> (Bit(buf, j) <==> j < used)
    {
      buf := Zeroes();
      NoBits();
      for i := 0 to used
        invariant forall j: nat {:trigger Bit(buf, j)} :: j < BPB ==> (Bit(buf, j) <==> j < i)
      {
        ghost var was := buf;
        forall j: nat | j < BPB ensures Bit(SetBit(was, i), j) <==> j < i + 1 { SetBitAt(was, i, j); }
        buf := buf[i / 8 := buf[i / 8] | Mask(i % 8)];
        assert buf == SetBit(was, i);
      }
    }

    /** ialloc(T_DIR) for the root, and its first two entries. */
    method MakeRoot(files: seq<File>) returns (ok: bool)
      requires Clean() && freeinode == 1 && freeblock == g.Meta()
      modifies `disk, `ino, `freeblock, `freeinode, `own
      ensures g.Meta() <= freeblock <= g.Meta() + 8
      ensures ok ==> Clean() && Holds(disk, ino, files, 0) && freeinode == 2
      ensures 2 <= g.ninodes && g.Meta() + 8 <= g.size ==> ok
    {
      ok := NewRoot(DirEntry(ROOTINO, DOT), DirEntry(ROOTINO, DOTDOT));
      if ok { HoldsNone(disk, ino, files); }
    }

    method NewRoot(e1: seq<byte>, e2: seq<byte>) returns (ok: bool)
      requires Clean() && freeinode == 1 && freeblock == g.Meta() && |e1| == |e2| == 16
      modifies `disk, `ino, `freeblock, `freeinode, `own
      ensures g.Meta() <= freeblock <= g.Meta() + 8
      ensures ok ==> Clean() && freeinode == 2 && 2 <= |ino| && Content(disk, ino[ROOTINO]) == e1 + e2
      ensures 2 <= g.ninodes && g.Meta() + 8 <= g.size ==> ok
    {
      var inum;
      ok, inum := Ialloc();
      if ok { ok := AppendTwo(inum, e1, e2); }
    }

    method AppendTwo(i: nat, e1: seq<byte>, e2: seq<byte>) returns (ok: bool)
      requires Clean() && i < freeinode && Content(disk, ino[i]) == [] && |e1| == |e2| == 16
      modifies `disk, `ino, `freeblock, `own
      ensures old(freeblock) <= freeblock <= old(freeblock) + 8
      ensures old(freeblock) + 8 <= g.size ==> ok
      ensures ok ==> Clean() && |ino| == |old(ino)| && Content(disk, ino[i]) == e1 + e2
    {
      ok := Iappend(i, e1);
      if !ok { return; }
      assert [] + e1 == e1;
      ok := Iappend(i, e2);
    }

    /** main() of mkfs for these files.  The image names no block twice and its free map is exact,
        always; every block below a size is mapped iff the root entries do not fill their last block. */
    method Make(files: seq<File>) returns (ok: bool)
      requires Clean() && freeinode == 1 && freeblock == g.Meta()
      modifies this
      ensures Fits(g, files) ==> ok
      ensures ok ==>
                NamesOk(g, disk, ino, own) && BitsOk(g, disk, own.Keys) && |ino| == g.ninodes && |files| + 2 <= |ino|
      ensures ok ==> (InodesOk(disk, ino) <==> (|files| + 2) * 16 % BSIZE != 0)
      ensures ok ==> Stored(disk, ino, files)
    {
      NeedPrefix(files, 0);
      assert files[..0] == [];
      ok := MakeRoot(files);
      if ok { ok := AddAll(files); }
      if ok {
        ok := freeblock < BPB;
        if ok { Seal(files); }
      }
    }

    /** The loop of main(). */
    method AddAll(files: seq<File>) returns (ok: bool)
      requires Clean() && Holds(disk, ino, files, 0) && freeinode == 2 && freeblock <= g.Meta() + Need([])
      modifies `disk, `ino, `freeblock, `freeinode, `own
      ensures ok ==> Clean() && Holds(disk, ino, files, |files|) && freeblock <= g.Meta() + Need(files)
      ensures Fits(g, files) ==> ok
    {
      ok := true;
      assert files[..0] == [];
      for n := 0 to |files|
        invariant ok && Clean() && Holds(disk, ino, files, n) && freeinode == n + 2
        invariant freeblock <= g.Meta() + Need(files[..n])
      {
        NeedNext(files, n);
        NeedPrefix(files, n + 1);
        ok := AddFile(files, n);
        if !ok { return; }
      }
      assert files[..|files|] == files;
    }

    method Seal(files: seq<File>)
      requires Clean() && Holds(disk, ino, files, |files|) && freeblock < BPB
      modifies `disk, `ino
      ensures NamesOk(g, disk, ino, own) && BitsOk(g, disk, own.Keys) && |ino| == g.ninodes && |files| + 2 <= |ino|
      ensures InodesOk(disk, ino) <==> (|files| + 2) * 16 % BSIZE != 0
      ensures Stored(disk, ino, files)
    {
      var buf := BitsBelow(freeblock);
      Marked(g, disk, ino, own, freeblock, buf);
      MarkedTidy(disk, disk[g.bmapstart := buf], ino, freeinode);
      HoldsKept(disk, disk[g.bmapstart := buf], ino, files);
      disk := disk[g.bmapstart := buf];
      Finished(g, disk, ino, own, freeinode, files);
      ino := ino[ROOTINO := ino[ROOTINO].(size := RootSize(ino[ROOTINO].size))];
    }
  }
  /** Reading the root from end to end meets a block that is not mapped iff its entries fill their last
      block. */
  lemma RootReads(disk: seq<Block>, ino: seq<Inode>, files: seq<File>)
    requires Stored(disk, ino, files)
    ensures ReadsMapped(disk, ino[ROOTINO], 0, ino[ROOTINO].size) <==> (|files| + 2) * 16 % BSIZE != 0
  {
    var n, ip := 16 * (|files| + 2), ino[ROOTINO];
    assert |Content(disk, ip)| == ip.size == RootSize(n);
    if n % 1024 == 0 {
      assert RootAt(disk, ino, n, n / 1024) && !ReadAt(disk, ip, 0, ip.size, n / 1024);
    } else {
      forall m: nat ensures ReadAt(disk, ip, 0, ip.size, m) {
        assert RootAt(disk, ino, n, m);
        if m * 1024 < RootSize(n) { UpToSize(n, m); }
      }
    }
  }

  /** mkfs, then the kernel's volume on the image: it is always sound, and it is valid, so that no readi()
      allocates, exactly if the root entries leave room in their last block; otherwise reading the root
      does. */
  method Boot(geo: Geo, files: seq<File>) returns (v: Volume?)
    requires geo.Ok() && 0 < geo.ninodes
    ensures Fits(geo, files) ==> v != null
    ensures v != null ==> v.Sound() && Stored(v.disk, v.ino, files)
    ensures v != null ==> (v.Valid() <==> (|files| + 2) * 16 % BSIZE != 0)
    ensures v != null ==> var ip := v.ino[ROOTINO]; v.Valid() <==> ReadsMapped(v.disk, ip, 0, ip.size)
  {
    var m := new Image(geo);
    var ok := m.Make(files);
    v := null;
    if ok {
      v := new Volume(geo, m.disk, m.ino, m.own);
      RootReads(v.disk, v.ino, files);
    }
  }

  lemma {:induction false} NeedEmpty(files: seq<File>)
    requires forall k :: 0 <= k < |files| ==> files[k].data == []
    ensures Need(files) == 8 + 4 * |files|
  {
    if files != [] { NeedEmpty(files[..|files| - 1]); }
  }

  /** The other images: the root has a block below its size that is not mapped, so that reading it to
      the end makes bmap() allocate. */
  method FullRoot(geo: Geo, files: seq<File>) returns (m: Image)
    requires geo.Ok() && Fits(geo, files) && (|files| + 2) * 16 % BSIZE == 0
    ensures fresh(m) && m.g == geo && ROOTINO < |m.ino| && m.ino[ROOTINO].size == RootSize(16 * (|files| + 2))
    ensures NamesOk(m.g, m.disk, m.ino, m.own) && BitsOk(m.g, m.disk, m.own.Keys) && !InodesOk(m.disk, m.ino)
    ensures forall b: nat :: 16 * (|files| + 2) / BSIZE <= b < MAXFILE ==> Addr(m.disk, m.ino[ROOTINO], b) == 0
  {
    m := new Image(geo);
    var ok := m.Make(files);
    ghost var n := 16 * (|files| + 2);
    assert Stored(m.disk, m.ino, files) && |Content(m.disk, m.ino[ROOTINO])| == m.ino[ROOTINO].size;
    forall b: nat | n / BSIZE <= b < MAXFILE ensures Addr(m.disk, m.ino[ROOTINO], b) == 0 {
      assert RootAt(m.disk, m.ino, n, b);
    }
  }

  lemma SixtyTwoFit(files: seq<File>)
    requires |files| == 62 && forall k :: 0 <= k < |files| ==> files[k].data == []
    ensures Fits(Geo(1000, 200, 32, 45), files)
  {
    NeedEmpty(files);
  }

  /** On the shipped layout (1000 blocks, 200 inodes) 62 files are such an image: the root is 2048 bytes
      long and has one block. */
  method SixtyTwoFiles(files: seq<File>) returns (m: Image)
    requires |files| == 62 && forall k :: 0 <= k < |files| ==> files[k].data == []
    ensures fresh(m) && m.g == Geo(1000, 200, 32, 45) && ROOTINO < |m.ino|
    ensures !InodesOk(m.disk, m.ino) && m.ino[ROOTINO].size == 2048 && Addr(m.disk, m.ino[ROOTINO], 1) == 0
  {
    SixtyTwoFit(files);
    m := FullRoot(Geo(1000, 200, 32, 45), files);
  }
}
