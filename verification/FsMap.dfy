/** Naming a block: what a new entry of an inode or of its indirect block changes, for every file. */
module FsMap {
  import opened FsBytes
  import opened FsVolume

  /** Only inode i may differ, and no size does. */
  predicate OnlyAddrs(i0: seq<Inode>, i1: seq<Inode>, i: nat) {
    && |i0| == |i1|
    && forall j: nat :: j < |i0| ==> i1[j].size == i0[j].size && (j != i ==> i1[j] == i0[j])
  }

  lemma NamedIsOwned(g: Geo, disk: seq<Block>, ino: seq<Inode>, own: map<nat, Slot>, x: Slot)
    requires g.Ok() && NamesOk(g, disk, ino, own) && SlotOk(|ino|, x)
    ensures var b := Name(disk, ino, x); b != 0 ==> b in own && own[b] == x && g.Meta() <= b < g.size
  {
    assert NamedAt(disk, ino, own, x) && OwnedAt(g, disk, ino, own, Name(disk, ino, x));
  }

  predicate AddrIs(d0: seq<Block>, i0: seq<Inode>, d1: seq<Block>, i1: seq<Inode>, x: Slot, b: nat, j: nat, m: nat) {
    j < |i0| == |i1| && m < MAXFILE ==> Addr(d1, i1[j], m) == if x == Data(j, m) then b else Addr(d0, i0[j], m)
  }

  predicate SameByte(d0: seq<Block>, i0: seq<Inode>, d1: seq<Block>, i1: seq<Inode>, j: nat, k: nat) {
    j < |i0| == |i1| ==> ByteAt(d1, i1[j], k) == ByteAt(d0, i0[j], k)
  }

  /** Slot x of inode x.i now names b; no other data block moved and no byte of a file changed. */
  ghost predicate Mapped(d0: seq<Block>, i0: seq<Inode>, d1: seq<Block>, i1: seq<Inode>, x: Slot, b: nat) {
    && |d0| == |d1| && OnlyAddrs(i0, i1, x.i)
    && (forall j: nat, m: nat {:trigger AddrIs(d0, i0, d1, i1, x, b, j, m)} :: AddrIs(d0, i0, d1, i1, x, b, j, m))
    && (forall j: nat, k: nat {:trigger SameByte(d0, i0, d1, i1, j, k)} :: SameByte(d0, i0, d1, i1, j, k))
  }

  lemma MappedOn(d0: seq<Block>, i0: seq<Inode>, d1: seq<Block>, i1: seq<Inode>, d2: seq<Block>, i2: seq<Inode>,
                 x: Slot, b: nat, c: nat)
    requires Mapped(d0, i0, d1, i1, Ind(x.i), c) && Mapped(d1, i1, d2, i2, x, b)
    ensures Mapped(d0, i0, d2, i2, x, b)
  {
    forall j: nat, m: nat ensures AddrIs(d0, i0, d2, i2, x, b, j, m) {
      assert AddrIs(d0, i0, d1, i1, Ind(x.i), c, j, m) && AddrIs(d1, i1, d2, i2, x, b, j, m);
    }
    forall j: nat, k: nat ensures SameByte(d0, i0, d2, i2, j, k) {
      assert SameByte(d0, i0, d1, i1, j, k) && SameByte(d1, i1, d2, i2, j, k);
    }
  }

  lemma MapStays(disk: seq<Block>, ino: seq<Inode>, i: nat, bn: nat)
    requires i < |ino| && bn < MAXFILE
    ensures Mapped(disk, ino, disk, ino, Data(i, bn), Addr(disk, ino[i], bn))
  {
    var b := Addr(disk, ino[i], bn);
    forall j: nat, m: nat ensures AddrIs(disk, ino, disk, ino, Data(i, bn), b, j, m) {}
    forall j: nat, k: nat ensures SameByte(disk, ino, disk, ino, j, k) {}
  }

  lemma Unmoved(disk: seq<Block>, ino: seq<Inode>, i: nat)
    requires i < |ino|
    ensures Mapped(disk, ino, disk, ino, Ind(i), 0)
  {
    forall j: nat, m: nat ensures AddrIs(disk, ino, disk, ino, Ind(i), 0, j, m) {}
    forall j: nat, k: nat ensures SameByte(disk, ino, disk, ino, j, k) {}
  }

  /** Writing a block that no inode names moves nothing. */
  lemma UnownedMaps(g: Geo, disk: seq<Block>, ino: seq<Inode>, own: map<nat, Slot>, c: nat, data: Block, i: nat)
    requires g.Ok() && NamesOk(g, disk, ino, own) && c < g.size && c !in own
    ensures Mapped(disk, ino, disk[c := data], ino, Ind(i), 0)
  {
    var disk' := disk[c := data];
    forall j: nat, m: nat ensures AddrIs(disk, ino, disk', ino, Ind(i), 0, j, m) {
      if j < |ino| && m < MAXFILE { NameElsewhere(g, disk, ino, own, c, data, Data(j, m)); }
    }
    forall j: nat, k: nat ensures SameByte(disk, ino, disk', ino, j, k) {
      assert AddrIs(disk, ino, disk', ino, Ind(i), 0, j, k / BSIZE);
      if j < |ino| && k / BSIZE < MAXFILE { NamedIsOwned(g, disk, ino, own, Data(j, k / BSIZE)); }
    }
  }

  lemma DirectMaps(disk: seq<Block>, ino: seq<Inode>, i: nat, bn: nat, b: nat)
    requires i < |ino| && bn < NDIRECT && ino[i].addrs[bn] == 0 && 0 < b < |disk| && disk[b] == Zeroes()
    ensures Mapped(disk, ino, disk, SetAddr(ino, i, bn, b), Data(i, bn), b)
  {
    var ino' := SetAddr(ino, i, bn, b);
    forall j: nat, m: nat ensures AddrIs(disk, ino, disk, ino', Data(i, bn), b, j, m) {}
    forall j: nat, k: nat ensures SameByte(disk, ino, disk, ino', j, k) {
      assert AddrIs(disk, ino, disk, ino', Data(i, bn), b, j, k / BSIZE);
    }
  }

  lemma IndirectMaps(disk: seq<Block>, ino: seq<Inode>, i: nat, b: nat)
    requires i < |ino| && ino[i].addrs[NDIRECT] == 0 && 0 < b < |disk| && disk[b] == Zeroes()
    ensures Mapped(disk, ino, disk, SetAddr(ino, i, NDIRECT, b), Ind(i), b)
  {
    var ino' := SetAddr(ino, i, NDIRECT, b);
    forall j: nat, m: nat ensures AddrIs(disk, ino, disk, ino', Ind(i), b, j, m) {
      if j == i && NDIRECT <= m < MAXFILE { ZeroWord(m - NDIRECT); }
    }
    forall j: nat, k: nat ensures SameByte(disk, ino, disk, ino', j, k) {
      assert AddrIs(disk, ino, disk, ino', Ind(i), b, j, k / BSIZE);
    }
  }

  lemma EntryMaps(g: Geo, disk: seq<Block>, ino: seq<Inode>, own: map<nat, Slot>, i: nat, bn: nat, b: nat, t: Block)
    requires g.Ok() && NamesOk(g, disk, ino, own) && i < |ino| && NewTable(disk, ino[i], bn, b, t)
    requires Addr(disk, ino[i], bn) == 0 && 0 < b < g.size && b !in own && disk[b] == Zeroes()
    ensures Mapped(disk, ino, disk[ino[i].addrs[NDIRECT] := t], ino, Data(i, bn), b)
  {
    var ind, x := ino[i].addrs[NDIRECT], Data(i, bn);
    var disk' := disk[ind := t];
    NamedIsOwned(g, disk, ino, own, Ind(i));
    forall j: nat, m: nat ensures AddrIs(disk, ino, disk', ino, x, b, j, m) {
      if j < |ino| && m < MAXFILE { EntryName(g, disk, ino, own, i, bn, b, t, Data(j, m)); }
    }
    forall j: nat, k: nat ensures SameByte(disk, ino, disk', ino, j, k) {
      assert AddrIs(disk, ino, disk', ino, x, b, j, k / BSIZE);
      if j < |ino| && k / BSIZE < MAXFILE { NamedIsOwned(g, disk, ino, own, Data(j, k / BSIZE)); }
    }
  }
}
