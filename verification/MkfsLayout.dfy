/** How mkfs/mkfs.c lays files out: blocks are handed out in order, mapping a block changes no byte of
    any file, and copying a piece changes just the bytes it covers. */
module MkfsLayout {
  import opened FsBytes
  import opened FsVolume
  import opened FsMap
  import opened FsWrite
  import opened FsCode

  predicate GivenAt(g: Geo, own: map<nat, Slot>, fb: nat, b: nat) { b in own <==> g.Meta() <= b < fb }

  predicate BlankAt(g: Geo, disk: seq<Block>, fb: nat, b: nat) {
    b < |disk| && (b < g.Meta() || fb <= b) ==> disk[b] == Zeroes()
  }

  /** The blocks from the end of the metadata up to fb are named, once each; the others are zero. */
  ghost predicate Laid(g: Geo, disk: seq<Block>, ino: seq<Inode>, own: map<nat, Slot>, fb: nat) {
    && g.Ok() && NamesOk(g, disk, ino, own) && g.Meta() <= fb <= g.size
    && (forall b: nat {:trigger GivenAt(g, own, fb, b)} :: GivenAt(g, own, fb, b))
    && (forall b: nat {:trigger BlankAt(g, disk, fb, b)} :: BlankAt(g, disk, fb, b))
  }

  lemma LaidMore(g: Geo, disk: seq<Block>, own: map<nat, Slot>, fb: nat, x: Slot)
    requires forall b: nat {:trigger GivenAt(g, own, fb, b)} :: GivenAt(g, own, fb, b)
    requires forall b: nat {:trigger BlankAt(g, disk, fb, b)} :: BlankAt(g, disk, fb, b)
    requires g.Meta() <= fb < |disk|
    ensures fb !in own && disk[fb] == Zeroes()
    ensures forall b: nat {:trigger GivenAt(g, own[fb := x], fb + 1, b)} :: GivenAt(g, own[fb := x], fb + 1, b)
    ensures forall b: nat {:trigger BlankAt(g, disk, fb + 1, b)} :: BlankAt(g, disk, fb + 1, b)
  {
    assert GivenAt(g, own, fb, fb) && BlankAt(g, disk, fb, fb);
    var own', n := own[fb := x], fb + 1;
    forall b: nat ensures GivenAt(g, own', n, b) { assert GivenAt(g, own, fb, b); }
    forall b: nat ensures BlankAt(g, disk, n, b) { assert BlankAt(g, disk, fb, b); }
  }

  /** din.addrs[fbn] = freeblock++ */
  lemma MapDirect(g: Geo, disk: seq<Block>, ino: seq<Inode>, own: map<nat, Slot>, fb: nat, i: nat, bn: nat)
    requires Laid(g, disk, ino, own, fb) && fb < g.size && i < |ino| && bn < NDIRECT && ino[i].addrs[bn] == 0
    ensures Laid(g, disk, SetAddr(ino, i, bn, fb), own[fb := Data(i, bn)], fb + 1)
    ensures Mapped(disk, ino, disk, SetAddr(ino, i, bn, fb), Data(i, bn), fb)
  {
    LaidMore(g, disk, own, fb, Data(i, bn));
    NameDirect(g, disk, ino, own, i, bn, fb);
    DirectMaps(disk, ino, i, bn, fb);
  }

  /** din.addrs[NDIRECT] = freeblock++ */
  lemma MapIndirect(g: Geo, disk: seq<Block>, ino: seq<Inode>, own: map<nat, Slot>, fb: nat, i: nat)
    requires Laid(g, disk, ino, own, fb) && fb < g.size && i < |ino| && ino[i].addrs[NDIRECT] == 0
    ensures Laid(g, disk, SetAddr(ino, i, NDIRECT, fb), own[fb := Ind(i)], fb + 1)
    ensures Mapped(disk, ino, disk, SetAddr(ino, i, NDIRECT, fb), Ind(i), fb)
  {
    LaidMore(g, disk, own, fb, Ind(i));
    NameIndirect(g, disk, ino, own, i, fb);
    IndirectMaps(disk, ino, i, fb);
  }

  /** indirect[fbn - NDIRECT] = freeblock++ */
  lemma MapEntry(g: Geo, disk: seq<Block>, ino: seq<Inode>, own: map<nat, Slot>, fb: nat, i: nat, bn: nat, t: Block)
    requires Laid(g, disk, ino, own, fb) && fb < g.size && i < |ino| && NewTable(disk, ino[i], bn, fb, t)
    requires Addr(disk, ino[i], bn) == 0
    ensures Laid(g, disk[ino[i].addrs[NDIRECT] := t], ino, own[fb := Data(i, bn)], fb + 1)
    ensures Mapped(disk, ino, disk[ino[i].addrs[NDIRECT] := t], ino, Data(i, bn), fb)
  {
    var ind, x := ino[i].addrs[NDIRECT], Data(i, bn);
    var disk', own', n := disk[ind := t], own[fb := x], fb + 1;
    NamedIsOwned(g, disk, ino, own, Ind(i));
    LaidMore(g, disk, own, fb, x);
    NameEntry(g, disk, ino, own, i, bn, fb, t);
    forall b: nat ensures BlankAt(g, disk', n, b) { assert BlankAt(g, disk, fb, b) && GivenAt(g, own, fb, ind); }
    EntryMaps(g, disk, ino, own, i, bn, fb, t);
  }

  // ---- bytes ----------------------------------------------------------------------------------------

  predicate ExactAt(disk: seq<Block>, ino: seq<Inode>, i: nat, z: nat, j: nat, m: nat) {
    j < |ino| && m < MAXFILE ==> (Addr(disk, ino[j], m) != 0 <==> m * 1024 < if j == i then z else ino[j].size)
  }

  /** Exactly the blocks below the size are mapped, taking z for the size of inode i. */
  ghost predicate Exact(disk: seq<Block>, ino: seq<Inode>, i: nat, z: nat) {
    forall j: nat, m: nat {:trigger ExactAt(disk, ino, i, z, j, m)} :: ExactAt(disk, ino, i, z, j, m)
  }

  /** bcopy() into data block b, which is the o / BSIZE-th of file i. */
  lemma Copies(g: Geo, disk: seq<Block>, ino: seq<Inode>, own: map<nat, Slot>, fb: nat, i: nat, b: nat, o: nat,
               piece: seq<byte>)
    requires Laid(g, disk, ino, own, fb) && i < |ino| && o / BSIZE < MAXFILE && o % BSIZE + |piece| <= BSIZE
    requires b == Addr(disk, ino[i], o / BSIZE) != 0
    ensures b < g.size
    ensures var disk' := disk[b := Patched(disk[b], o % BSIZE, piece)];
            && Laid(g, disk', ino, own, fb) && Wrote(disk, ino, disk', ino, i, o, o + |piece|, piece)
            && Unmoving(disk, ino, disk', ino, i)
  {
    NamedIsOwned(g, disk, ino, own, Data(i, o / BSIZE));
    DataWrote(g, disk, ino, own, i, b, o, piece);
    var disk' := disk[b := Patched(disk[b], o % BSIZE, piece)];
    assert GivenAt(g, own, fb, b);
    forall c: nat ensures BlankAt(g, disk', fb, c) { assert BlankAt(g, disk, fb, c); }
  }

  lemma ExactOn(d1: seq<Block>, i1: seq<Inode>, d2: seq<Block>, i2: seq<Inode>, d3: seq<Block>, i: nat, o: nat, n: nat,
                b: nat)
    requires Exact(d1, i1, i, o) && Mapped(d1, i1, d2, i2, Data(i, o / BSIZE), b) && b != 0 && 0 < n
             && o % BSIZE + n <= BSIZE
    requires Unmoving(d2, i2, d3, i2, i)
    ensures Exact(d3, i2, i, o + n)
  {
    var e := o + n;
    forall j: nat, m: nat ensures ExactAt(d3, i2, i, e, j, m) {
      assert ExactAt(d1, i1, i, o, j, m) && AddrIs(d1, i1, d2, i2, Data(i, o / BSIZE), b, j, m);
      assert AddrIs(d2, i2, d3, i2, Ind(i), 0, j, m);
      if j == i && m < MAXFILE { Below(o, n, m); }
    }
  }

  lemma Below(o: nat, n: nat, m: nat)
    requires 0 < n && o % BSIZE + n <= BSIZE
    ensures m * 1024 < o + n <==> m * 1024 < o || m == o / BSIZE
  {
  }
}
