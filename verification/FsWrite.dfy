/** Writing into files: what a copy into a data block changes, for every byte of every file. */
module FsWrite {
  import opened FsBytes
  import opened FsVolume
  import opened FsMap

  /** Block b with `piece` copied in at o. */
  function Patched(b: Block, o: nat, piece: seq<byte>): Block
    requires o + |piece| <= BSIZE
  {
    b[..o] + piece + b[o + |piece|..]
  }

  lemma ByteCopied(b: Block, o: nat, piece: seq<byte>, k: nat)
    requires o + |piece| <= BSIZE && k < BSIZE
    ensures Patched(b, o, piece)[k] == if o <= k < o + |piece| then piece[k - o] else b[k]
  {
  }

  predicate WroteAt(d0: seq<Block>, i0: seq<Inode>, d1: seq<Block>, i1: seq<Inode>, i: nat, off: nat, o: nat,
                    src: seq<byte>, j: nat, k: nat) {
    j < |i0| == |i1| && off <= o <= off + |src| ==>
      ByteAt(d1, i1[j], k) == if j == i && off <= k < o then src[k - off] else ByteAt(d0, i0[j], k)
  }

  /** The bytes off..o of file i are those of src; no other byte of any file has changed. */
  ghost predicate Wrote(d0: seq<Block>, i0: seq<Inode>, d1: seq<Block>, i1: seq<Inode>, i: nat, off: nat, o: nat,
                        src: seq<byte>) {
    && |d0| == |d1| && OnlyAddrs(i0, i1, i)
    && forall j: nat, k: nat {:trigger WroteAt(d0, i0, d1, i1, i, off, o, src, j, k)} ::
         WroteAt(d0, i0, d1, i1, i, off, o, src, j, k)
  }

  lemma NothingWrote(disk: seq<Block>, ino: seq<Inode>, i: nat, off: nat, src: seq<byte>)
    ensures Wrote(disk, ino, disk, ino, i, off, off, src)
  {
    forall j: nat, k: nat ensures WroteAt(disk, ino, disk, ino, i, off, off, src, j, k) {}
  }

  lemma SameBlock(o: nat, n: nat, k: nat)
    requires o <= k < o + n && o % BSIZE + n <= BSIZE
    ensures k / BSIZE == o / BSIZE && k % BSIZE == o % BSIZE + (k - o)
  {
  }

  /** No data block of any file has another number. */
  ghost predicate Unmoving(d0: seq<Block>, i0: seq<Inode>, d1: seq<Block>, i1: seq<Inode>, i: nat) {
    forall j: nat, m: nat {:trigger AddrIs(d0, i0, d1, i1, Ind(i), 0, j, m)} :: AddrIs(d0, i0, d1, i1, Ind(i), 0, j, m)
  }

  /** Byte k of a block with `piece` copied in, both counted from the start of the file. */
  lemma InPiece(b: Block, o: nat, piece: seq<byte>, k: nat)
    requires o % BSIZE + |piece| <= BSIZE && k / BSIZE == o / BSIZE
    ensures Patched(b, o % BSIZE, piece)[k % BSIZE] == if o <= k < o + |piece| then piece[k - o] else b[k % BSIZE]
  {
    assert k - o == k % BSIZE - o % BSIZE;
    ByteCopied(b, o % BSIZE, piece, k % BSIZE);
  }

  /** Two places of files never name the same block. */
  lemma OtherBlock(g: Geo, disk: seq<Block>, ino: seq<Inode>, own: map<nat, Slot>, x: Slot, y: Slot)
    requires g.Ok() && NamesOk(g, disk, ino, own) && SlotOk(|ino|, x) && SlotOk(|ino|, y) && x != y
    requires Name(disk, ino, x) != 0
    ensures Name(disk, ino, y) != Name(disk, ino, x)
  {
    NamedIsOwned(g, disk, ino, own, x);
    NamedIsOwned(g, disk, ino, own, y);
  }

  lemma ByteMoved(g: Geo, disk: seq<Block>, ino: seq<Inode>, own: map<nat, Slot>, i: nat, b: nat, o: nat,
                  piece: seq<byte>, j: nat, k: nat)
    requires g.Ok() && NamesOk(g, disk, ino, own) && i < |ino| && j < |ino| && o / BSIZE < MAXFILE && b < |disk|
    requires o % BSIZE + |piece| <= BSIZE && b == Addr(disk, ino[i], o / BSIZE) != 0
    requires var disk' := disk[b := Patched(disk[b], o % BSIZE, piece)];
             k / BSIZE < MAXFILE ==> Addr(disk', ino[j], k / BSIZE) == Addr(disk, ino[j], k / BSIZE)
    ensures var disk' := disk[b := Patched(disk[b], o % BSIZE, piece)];
            WroteAt(disk, ino, disk', ino, i, o, o + |piece|, piece, j, k)
  {
    if j == i && o <= k < o + |piece| { SameBlock(o, |piece|, k); }
    if k / BSIZE < MAXFILE {
      if j == i && k / BSIZE == o / BSIZE {
        InPiece(disk[b], o, piece, k);
      } else {
        OtherBlock(g, disk, ino, own, Data(i, o / BSIZE), Data(j, k / BSIZE));
      }
    }
  }

  /** A copy into data block b, which is the o / BSIZE-th of file i: just the bytes it covers change. */
  lemma DataWrote(g: Geo, disk: seq<Block>, ino: seq<Inode>, own: map<nat, Slot>, i: nat, b: nat, o: nat,
                  piece: seq<byte>)
    requires g.Ok() && NamesOk(g, disk, ino, own) && i < |ino| && o / BSIZE < MAXFILE && o % BSIZE + |piece| <= BSIZE
    requires b == Addr(disk, ino[i], o / BSIZE) != 0
    ensures g.Meta() <= b < g.size
    ensures var disk' := disk[b := Patched(disk[b], o % BSIZE, piece)];
            && NamesOk(g, disk', ino, own) && Unmoving(disk, ino, disk', ino, i)
            && Wrote(disk, ino, disk', ino, i, o, o + |piece|, piece)
  {
    NamedIsOwned(g, disk, ino, own, Data(i, o / BSIZE));
    var data, e := Patched(disk[b], o % BSIZE, piece), o + |piece|;
    var disk' := disk[b := data];
    WriteKeepsNames(g, disk, ino, own, b, data);
    forall j: nat, m: nat ensures AddrIs(disk, ino, disk', ino, Ind(i), 0, j, m) {
      if j < |ino| && m < MAXFILE { NameElsewhere(g, disk, ino, own, b, data, Data(j, m)); }
    }
    forall j: nat, k: nat ensures WroteAt(disk, ino, disk', ino, i, o, e, piece, j, k) {
      assert AddrIs(disk, ino, disk', ino, Ind(i), 0, j, k / BSIZE);
      if j < |ino| { ByteMoved(g, disk, ino, own, i, b, o, piece, j, k); }
    }
  }

  /** One round of iappend(): the block is mapped, then the piece goes into it. */
  lemma MappedWrote(d1: seq<Block>, i1: seq<Inode>, d2: seq<Block>, i2: seq<Inode>, d3: seq<Block>, x: Slot, b: nat,
                    o: nat, e: nat, piece: seq<byte>)
    requires Mapped(d1, i1, d2, i2, x, b) && Wrote(d2, i2, d3, i2, x.i, o, e, piece)
    ensures Wrote(d1, i1, d3, i2, x.i, o, e, piece)
  {
    forall j: nat, k: nat ensures WroteAt(d1, i1, d3, i2, x.i, o, e, piece, j, k) {
      assert SameByte(d1, i1, d2, i2, j, k) && WroteAt(d2, i2, d3, i2, x.i, o, e, piece, j, k);
    }
  }

  lemma WroteOn(d0: seq<Block>, i0: seq<Inode>, d1: seq<Block>, i1: seq<Inode>, d2: seq<Block>, i2: seq<Inode>,
                i: nat, off: nat, o: nat, e: nat, src: seq<byte>, piece: seq<byte>)
    requires off <= o <= e <= off + |src| && Wrote(d0, i0, d1, i1, i, off, o, src)
    requires piece == src[o - off..e - off] && Wrote(d1, i1, d2, i2, i, o, e, piece)
    ensures Wrote(d0, i0, d2, i2, i, off, e, src)
  {
    forall j: nat, k: nat ensures WroteAt(d0, i0, d2, i2, i, off, e, src, j, k) {
      assert WroteAt(d0, i0, d1, i1, i, off, o, src, j, k)
             && WroteAt(d1, i1, d2, i2, i, o, e, piece, j, k);
    }
  }

  // ---- what stays mapped ------------------------------------------------------------------------------

  predicate StaysAt(d0: seq<Block>, i0: seq<Inode>, d1: seq<Block>, i1: seq<Inode>, j: nat, m: nat) {
    j < |i0| == |i1| && m < MAXFILE && Addr(d0, i0[j], m) != 0 ==> Addr(d1, i1[j], m) != 0
  }

  /** What was mapped still is. */
  ghost predicate Stays(d0: seq<Block>, i0: seq<Inode>, d1: seq<Block>, i1: seq<Inode>) {
    forall j: nat, m: nat {:trigger StaysAt(d0, i0, d1, i1, j, m)} :: StaysAt(d0, i0, d1, i1, j, m)
  }

  lemma StaysSelf(disk: seq<Block>, ino: seq<Inode>)
    ensures Stays(disk, ino, disk, ino)
  {
    forall j: nat, m: nat ensures StaysAt(disk, ino, disk, ino, j, m) {}
  }

  lemma StaysOn(d0: seq<Block>, i0: seq<Inode>, d1: seq<Block>, i1: seq<Inode>, d2: seq<Block>, i2: seq<Inode>)
    requires |i0| == |i1| == |i2| && Stays(d0, i0, d1, i1) && Stays(d1, i1, d2, i2)
    ensures Stays(d0, i0, d2, i2)
  {
    forall j: nat, m: nat ensures StaysAt(d0, i0, d2, i2, j, m) {
      assert StaysAt(d0, i0, d1, i1, j, m) && StaysAt(d1, i1, d2, i2, j, m);
    }
  }

  /** Mapping a block, then writing into data blocks, unmaps nothing. */
  lemma MappedStays(d0: seq<Block>, i0: seq<Inode>, d1: seq<Block>, i1: seq<Inode>, x: Slot, b: nat)
    requires Mapped(d0, i0, d1, i1, x, b) && (b != 0 || x.Ind?)
    ensures Stays(d0, i0, d1, i1)
  {
    forall j: nat, m: nat ensures StaysAt(d0, i0, d1, i1, j, m) { assert AddrIs(d0, i0, d1, i1, x, b, j, m); }
  }

  lemma UnmovingStays(d0: seq<Block>, i0: seq<Inode>, d1: seq<Block>, i1: seq<Inode>, i: nat)
    requires Unmoving(d0, i0, d1, i1, i)
    ensures Stays(d0, i0, d1, i1)
  {
    forall j: nat, m: nat ensures StaysAt(d0, i0, d1, i1, j, m) { assert AddrIs(d0, i0, d1, i1, Ind(i), 0, j, m); }
  }
}
