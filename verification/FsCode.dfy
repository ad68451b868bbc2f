/** kernel/fs.c as it works on a volume: balloc(), bfree(), bmap(), itrunc(), readi(), writei(), and
    the loop of filewrite() in kernel/file.c. */
module FsCode {
  import opened Finite
  import opened FsBytes
  import opened FsVolume
  import opened FsMap
  import opened FsWrite

  // ---- single bits of the free map --------------------------------------------------------------

  lemma Same(b: nat, c: nat)
    ensures b / BPB == c / BPB && b % BPB == c % BPB <==> b == c
  {
  }

  function WithBit(g: Geo, disk: seq<Block>, b: nat): seq<Block>
    requires g.Ok() && |disk| == g.size && b < g.size
  {
    disk[g.BitBlock(b) := SetBit(disk[g.BitBlock(b)], b % BPB)]
  }

  function WithoutBit(g: Geo, disk: seq<Block>, b: nat): seq<Block>
    requires g.Ok() && |disk| == g.size && b < g.size
  {
    disk[g.BitBlock(b) := ClearBit(disk[g.BitBlock(b)], b % BPB)]
  }

  lemma SetOneBit(g: Geo, disk: seq<Block>, used: set<nat>, b: nat)
    requires BitsOk(g, disk, used) && b < g.size
    ensures BitsOk(g, WithBit(g, disk, b), used + {b})
  {
    var disk', used' := WithBit(g, disk, b), used + {b};
    forall c: nat ensures BitAt(g, disk', used', c) {
      assert BitAt(g, disk, used, c) && BitAt(g, disk, used, b);
      SetBitAt(disk[g.BitBlock(b)], b % BPB, c % BPB);
      Same(b, c);
    }
  }

  lemma ClearOneBit(g: Geo, disk: seq<Block>, used: set<nat>, b: nat)
    requires BitsOk(g, disk, used) && g.Meta() <= b < g.size
    ensures BitsOk(g, WithoutBit(g, disk, b), used - {b})
  {
    var disk', used' := WithoutBit(g, disk, b), used - {b};
    forall c: nat ensures BitAt(g, disk', used', c) {
      assert BitAt(g, disk, used, c);
      ClearBitAt(disk[g.BitBlock(b)], b % BPB, c % BPB);
      Same(b, c);
    }
  }

  /** Blocks past the metadata hold no bits. */
  lemma DataHoldsNoBits(g: Geo, disk: seq<Block>, used: set<nat>, b: nat, data: Block)
    requires BitsOk(g, disk, used) && g.Meta() <= b < g.size
    ensures BitsOk(g, disk[b := data], used)
  {
    var disk' := disk[b := data];
    forall c: nat ensures BitAt(g, disk', used, c) { assert BitAt(g, disk, used, c); }
  }

  // ---- what is kept over several steps ------------------------------------------------------------

  lemma MetaUnowned(g: Geo, disk: seq<Block>, ino: seq<Inode>, own: map<nat, Slot>, b: nat)
    requires g.Ok() && NamesOk(g, disk, ino, own) && b < g.size
    ensures g.BitBlock(b) < g.Meta() && g.BitBlock(b) !in own
  {
    assert OwnedAt(g, disk, ino, own, g.BitBlock(b));
  }

  /** The volume after balloc() returned b: its bit set, its bytes zero. */
  function Taken(g: Geo, disk: seq<Block>, b: nat): seq<Block>
    requires g.Ok() && |disk| == g.size && b < g.size
  {
    WithBit(g, disk, b)[b := Zeroes()]
  }

  lemma TakenKeeps(g: Geo, disk: seq<Block>, ino: seq<Inode>, own: map<nat, Slot>, b: nat)
    requires NamesOk(g, disk, ino, own) && BitsOk(g, disk, own.Keys) && g.Meta() <= b < g.size && b !in own
    ensures NamesOk(g, Taken(g, disk, b), ino, own) && BitsOk(g, Taken(g, disk, b), own.Keys + {b})
    ensures Taken(g, disk, b)[b] == Zeroes()
  {
    MetaUnowned(g, disk, ino, own, b);
    WriteKeepsNames(g, disk, ino, own, g.BitBlock(b), SetBit(disk[g.BitBlock(b)], b % BPB));
    WriteKeepsNames(g, WithBit(g, disk, b), ino, own, b, Zeroes());
    SetOneBit(g, disk, own.Keys, b);
    DataHoldsNoBits(g, WithBit(g, disk, b), own.Keys + {b}, b, Zeroes());
  }

  predicate SetAt(g: Geo, disk: seq<Block>, c: nat)
    requires g.Ok() && |disk| == g.size
  {
    c < g.size ==> BitOf(g, disk, c)
  }

  /** No block below n is free. */
  ghost predicate AllSet(g: Geo, disk: seq<Block>, n: nat)
    requires g.Ok() && |disk| == g.size
  {
    forall c: nat {:trigger SetAt(g, disk, c)} :: c < n ==> SetAt(g, disk, c)
  }

  lemma InBlock(g: Geo, disk: seq<Block>, b: nat, bi: nat)
    requires g.Ok() && |disk| == g.size && b % BPB == 0 && bi < BPB && b + bi < g.size
    ensures g.BitBlock(b + bi) == g.BitBlock(b) && (b + bi) % BPB == bi
    ensures BitOf(g, disk, b + bi) <==> disk[g.BitBlock(b)][bi / 8] & Mask(bi % 8) != 0
    ensures AllSet(g, disk, b + bi) && BitOf(g, disk, b + bi) ==> AllSet(g, disk, b + bi + 1)
  {
  }

  lemma SetAreUsed(g: Geo, disk: seq<Block>, used: set<nat>, n: nat)
    requires BitsOk(g, disk, used) && AllSet(g, disk, n)
    ensures forall c :: g.Meta() <= c < n && c < g.size ==> c in used
  {
    forall c | g.Meta() <= c < n && c < g.size ensures c in used {
      assert SetAt(g, disk, c) && BitAt(g, disk, used, c);
    }
  }

  /** Taking an unnamed block leaves an empty entry empty. */
  lemma NoneYet(g: Geo, disk: seq<Block>, ino: seq<Inode>, own: map<nat, Slot>, i: nat, bn: nat, b: nat)
    requires g.Ok() && NamesOk(g, disk, ino, own) && i < |ino| && bn < MAXFILE && Addr(disk, ino[i], bn) == 0
    requires g.Meta() <= b < g.size && b !in own
    ensures Addr(Taken(g, disk, b), ino[i], bn) == 0
  {
    MetaUnowned(g, disk, ino, own, b);
    var bits := SetBit(disk[g.BitBlock(b)], b % BPB);
    NameElsewhere(g, disk, ino, own, g.BitBlock(b), bits, Data(i, bn));
    WriteKeepsNames(g, disk, ino, own, g.BitBlock(b), bits);
    NameElsewhere(g, WithBit(g, disk, b), ino, own, b, Zeroes(), Data(i, bn));
  }

  ghost predicate InodesOk(disk: seq<Block>, ino: seq<Inode>) {
    forall i: nat {:trigger InodeOk(disk, ino[i])} :: i < |ino| ==> InodeOk(disk, ino[i])
  }

  /** If nothing is unmapped, the blocks below each size stay mapped. */
  lemma InodesStay(d0: seq<Block>, i0: seq<Inode>, d1: seq<Block>, i1: seq<Inode>, i: nat)
    requires Stays(d0, i0, d1, i1) && OnlyAddrs(i0, i1, i)
    ensures InodesOk(d0, i0) ==> InodesOk(d1, i1)
  {
    if InodesOk(d0, i0) {
      forall j: nat | j < |i1| ensures InodeOk(d1, i1[j]) {
        assert InodeOk(d0, i0[j]);
        forall m: nat ensures MappedAt(d1, i1[j], m) { assert MappedAt(d0, i0[j], m) && StaysAt(d0, i0, d1, i1, j, m); }
      }
    }
  }

  method StoreWord(b: Block, j: nat, w: nat) returns (t: Block)
    requires j < NINDIRECT && w < WORD
    ensures IsPut(t, b, j, w)
  {
    PutWordIs(b, j, w);
    t := PutWord(b, j, w);
  }

  lemma TakenMaps(g: Geo, disk: seq<Block>, ino: seq<Inode>, own: map<nat, Slot>, b: nat, i: nat)
    requires NamesOk(g, disk, ino, own) && BitsOk(g, disk, own.Keys) && g.Meta() <= b < g.size && b !in own
    ensures Mapped(disk, ino, Taken(g, disk, b), ino, Ind(i), 0)
  {
    MetaUnowned(g, disk, ino, own, b);
    var bits := SetBit(disk[g.BitBlock(b)], b % BPB);
    UnownedMaps(g, disk, ino, own, g.BitBlock(b), bits, i);
    WriteKeepsNames(g, disk, ino, own, g.BitBlock(b), bits);
    UnownedMaps(g, WithBit(g, disk, b), ino, own, b, Zeroes(), i);
    MappedOn(disk, ino, WithBit(g, disk, b), ino, Taken(g, disk, b), ino, Ind(i), 0, 0);
  }

  /** balloc() for a direct block. */
  lemma DirectTaken(g: Geo, disk: seq<Block>, ino: seq<Inode>, own: map<nat, Slot>, i: nat, bn: nat, b: nat)
    requires NamesOk(g, disk, ino, own) && BitsOk(g, disk, own.Keys) && i < |ino| && g.Meta() <= b < g.size && b !in own
    requires bn < NDIRECT && ino[i].addrs[bn] == 0
    ensures var d, ino' := Taken(g, disk, b), SetAddr(ino, i, bn, b);
            && NamesOk(g, d, ino', own[b := Data(i, bn)]) && BitsOk(g, d, own[b := Data(i, bn)].Keys)
            && Mapped(disk, ino, d, ino', Data(i, bn), b) && d[b] == Zeroes()
  {
    var d, ino' := Taken(g, disk, b), SetAddr(ino, i, bn, b);
    TakenKeeps(g, disk, ino, own, b);
    NameDirect(g, d, ino, own, i, bn, b);
    TakenMaps(g, disk, ino, own, b, i);
    DirectMaps(d, ino, i, bn, b);
    MappedOn(disk, ino, d, ino, d, ino', Data(i, bn), b, 0);
    assert own[b := Data(i, bn)].Keys == own.Keys + {b};
  }

  /** balloc() for the indirect block. */
  lemma IndirectTaken(g: Geo, disk: seq<Block>, ino: seq<Inode>, own: map<nat, Slot>, i: nat, b: nat)
    requires NamesOk(g, disk, ino, own) && BitsOk(g, disk, own.Keys) && i < |ino| && g.Meta() <= b < g.size && b !in own
    requires ino[i].addrs[NDIRECT] == 0
    ensures var d, ino' := Taken(g, disk, b), SetAddr(ino, i, NDIRECT, b);
            && NamesOk(g, d, ino', own[b := Ind(i)]) && BitsOk(g, d, own[b := Ind(i)].Keys)
            && Mapped(disk, ino, d, ino', Ind(i), b) && d[b] == Zeroes()
  {
    var d, ino' := Taken(g, disk, b), SetAddr(ino, i, NDIRECT, b);
    TakenKeeps(g, disk, ino, own, b);
    NameIndirect(g, d, ino, own, i, b);
    TakenMaps(g, disk, ino, own, b, i);
    IndirectMaps(d, ino, i, b);
    MappedOn(disk, ino, d, ino, d, ino', Ind(i), b, 0);
    assert own[b := Ind(i)].Keys == own.Keys + {b};
  }

  /** balloc() for an entry of the indirect block, then the entry itself. */
  lemma EntryTaken(g: Geo, disk: seq<Block>, ino: seq<Inode>, own: map<nat, Slot>, i: nat, bn: nat, b: nat, t: Block)
    requires NamesOk(g, disk, ino, own) && BitsOk(g, disk, own.Keys) && i < |ino| && g.Meta() <= b < g.size && b !in own
    requires NewTable(Taken(g, disk, b), ino[i], bn, b, t) && Addr(disk, ino[i], bn) == 0
    ensures var d := Taken(g, disk, b)[ino[i].addrs[NDIRECT] := t];
            && NamesOk(g, d, ino, own[b := Data(i, bn)]) && BitsOk(g, d, own[b := Data(i, bn)].Keys)
            && Addr(d, ino[i], bn) == b && d[b] == Zeroes()
  {
    var mid := Taken(g, disk, b);
    TakenKeeps(g, disk, ino, own, b);
    NoneYet(g, disk, ino, own, i, bn, b);
    NameEntry(g, mid, ino, own, i, bn, b, t);
    EntryName(g, mid, ino, own, i, bn, b, t, Data(i, bn));
    NamedIsOwned(g, disk, ino, own, Ind(i));
    DataHoldsNoBits(g, mid, own.Keys + {b}, ino[i].addrs[NDIRECT], t);
    assert own[b := Data(i, bn)].Keys == own.Keys + {b};
  }

  lemma EntryTakenMaps(g: Geo, disk: seq<Block>, ino: seq<Inode>, own: map<nat, Slot>, i: nat, bn: nat, b: nat,
                        t: Block)
    requires NamesOk(g, disk, ino, own) && BitsOk(g, disk, own.Keys) && i < |ino| && g.Meta() <= b < g.size && b !in own
    requires NewTable(Taken(g, disk, b), ino[i], bn, b, t) && Addr(disk, ino[i], bn) == 0
    ensures Mapped(disk, ino, Taken(g, disk, b)[ino[i].addrs[NDIRECT] := t], ino, Data(i, bn), b)
  {
    var mid := Taken(g, disk, b);
    assert Mapped(disk, ino, mid, ino, Ind(i), 0) by { TakenMaps(g, disk, ino, own, b, i); }
    TakenKeeps(g, disk, ino, own, b);
    NoneYet(g, disk, ino, own, i, bn, b);
    var d := mid[ino[i].addrs[NDIRECT] := t];
    EntryMaps(g, mid, ino, own, i, bn, b, t);
    MappedOn(disk, ino, mid, ino, d, ino, Data(i, bn), b, 0);
  }

  predicate AreBitBlocks(g: Geo, bits: set<nat>) { forall c :: c in bits ==> g.bmapstart <= c < g.Meta() }

  function Min(a: nat, b: nat): nat { if a < b then a else b }

  // ---- reading ------------------------------------------------------------------------------------

  /** What readi() returns of a file with these bytes: nothing if off + n does not fit in 32 bits. */
  function ReadOf(c: seq<byte>, off: nat, n: nat): seq<byte> {
    if off > |c| || off + n >= WORD then [] else c[off..Min(off + n, |c|)]
  }

  /** What a reader expects: the bytes from off on, n of them or as many as there are. */
  function Expected(c: seq<byte>, off: nat, n: nat): seq<byte> {
    if off > |c| then [] else c[off..Min(off + n, |c|)]
  }

  /** The two agree exactly if the sum does not wrap around or there is nothing to read. */
  lemma ReadsAllIffNoWrap(c: seq<byte>, off: nat, n: nat)
    requires |c| < WORD && off < WORD && n < WORD
    ensures ReadOf(c, off, n) == Expected(c, off, n) <==> off + n < WORD || off >= |c|
  {
    if off + n >= WORD && off < |c| { assert |Expected(c, off, n)| > 0; }
  }

  /** read(fd, p, -1) at offset 1: the count is 2^32 - 1, and nothing comes back. */
  lemma MinusOneReadsNothing(c: seq<byte>)
    requires 1 < |c| < WORD
    ensures ReadOf(c, 1, WORD - 1) == [] && Expected(c, 1, WORD - 1) == c[1..] != []
  {
    assert c[1..][0] == c[1];
  }

  /** No byte of a file and no size has changed. */
  ghost predicate SameBytes(d0: seq<Block>, i0: seq<Inode>, d1: seq<Block>, i1: seq<Inode>) {
    && |i0| == |i1| && (forall j :: 0 <= j < |i0| ==> i1[j].size == i0[j].size)
    && forall j: nat, k: nat {:trigger SameByte(d0, i0, d1, i1, j, k)} :: SameByte(d0, i0, d1, i1, j, k)
  }

  lemma SameBytesSelf(disk: seq<Block>, ino: seq<Inode>)
    ensures SameBytes(disk, ino, disk, ino)
  {
    forall j: nat, k: nat ensures SameByte(disk, ino, disk, ino, j, k) {}
  }

  lemma SameBytesOn(d0: seq<Block>, i0: seq<Inode>, d1: seq<Block>, i1: seq<Inode>, d2: seq<Block>, i2: seq<Inode>,
                    x: Slot, b: nat)
    requires SameBytes(d0, i0, d1, i1) && Mapped(d1, i1, d2, i2, x, b)
    ensures SameBytes(d0, i0, d2, i2)
  {
    forall j: nat, k: nat ensures SameByte(d0, i0, d2, i2, j, k) {
      assert SameByte(d0, i0, d1, i1, j, k) && SameByte(d1, i1, d2, i2, j, k);
    }
  }

  predicate ReadAt(disk: seq<Block>, ip: Inode, off: nat, o: nat, bn: nat) {
    off < o && off / 1024 <= bn && bn * 1024 < o ==> bn < MAXFILE && Addr(disk, ip, bn) != 0
  }

  /** The blocks that hold the bytes off..o are mapped. */
  ghost predicate BlocksMapped(disk: seq<Block>, ip: Inode, off: nat, o: nat) {
    forall bn: nat {:trigger ReadAt(disk, ip, off, o, bn)} :: ReadAt(disk, ip, off, o, bn)
  }

  /** The blocks that readi() looks at are mapped. */
  ghost predicate ReadsMapped(disk: seq<Block>, ip: Inode, off: nat, n: nat) {
    off <= ip.size && off + n < WORD ==> BlocksMapped(disk, ip, off, Min(off + n, ip.size))
  }

  lemma ValidReads(disk: seq<Block>, ino: seq<Inode>, i: nat, off: nat, n: nat)
    requires i < |ino|
    ensures InodesOk(disk, ino) ==> ReadsMapped(disk, ino[i], off, n)
  {
    if InodesOk(disk, ino) && off <= ino[i].size {
      assert InodeOk(disk, ino[i]);
      var e := Min(off + n, ino[i].size);
      forall bn: nat ensures ReadAt(disk, ino[i], off, e, bn) { assert MappedAt(disk, ino[i], bn); }
    }
  }

  lemma NothingMapped(disk: seq<Block>, ip: Inode, off: nat)
    ensures BlocksMapped(disk, ip, off, off)
  {
    forall bn: nat ensures ReadAt(disk, ip, off, off, bn) {}
  }

  lemma BlocksNext(disk: seq<Block>, ip: Inode, off: nat, o: nat, m: nat, end: nat)
    requires off <= o < end && m == Min(end - o, BSIZE - o % BSIZE) && (o == off || o % BSIZE == 0)
    ensures BlocksMapped(disk, ip, off, o + m) <==>
              BlocksMapped(disk, ip, off, o) && o / BSIZE < MAXFILE && Addr(disk, ip, o / BSIZE) != 0
    ensures BlocksMapped(disk, ip, off, end) ==> BlocksMapped(disk, ip, off, o + m)
    ensures o + m < end ==> (o + m) % BSIZE == 0
  {
    var e := o + m;
    if BlocksMapped(disk, ip, off, o) && o / BSIZE < MAXFILE && Addr(disk, ip, o / BSIZE) != 0 {
      forall bn: nat ensures ReadAt(disk, ip, off, e, bn) { assert ReadAt(disk, ip, off, o, bn); }
    }
    if BlocksMapped(disk, ip, off, e) {
      forall bn: nat ensures ReadAt(disk, ip, off, o, bn) { assert ReadAt(disk, ip, off, e, bn); }
      assert ReadAt(disk, ip, off, e, o / BSIZE);
    }
    if BlocksMapped(disk, ip, off, end) {
      forall bn: nat ensures ReadAt(disk, ip, off, e, bn) { assert ReadAt(disk, ip, off, end, bn); }
    }
  }

  lemma Slices(c: seq<byte>, a: nat, b: nat, e: nat)
    requires a <= b <= e <= |c|
    ensures c[a..b] + c[b..e] == c[a..e]
  {
  }

  lemma ReadChunk(d0: seq<Block>, i0: seq<Inode>, d1: seq<Block>, i1: seq<Inode>, i: nat, o: nat, m: nat)
    requires SameBytes(d0, i0, d1, i1) && i < |i0| && o + m <= i0[i].size && o % BSIZE + m <= BSIZE
    requires o / BSIZE < MAXFILE && 0 < Addr(d1, i1[i], o / BSIZE) < |d1|
    ensures d1[Addr(d1, i1[i], o / BSIZE)][o % BSIZE..o % BSIZE + m] == Content(d0, i0[i])[o..o + m]
  {
    var part, whole := d1[Addr(d1, i1[i], o / BSIZE)][o % BSIZE..o % BSIZE + m], Content(d0, i0[i])[o..o + m];
    forall k: nat | k < m ensures part[k] == whole[k] {
      assert (o + k) / BSIZE == o / BSIZE && (o + k) % BSIZE == o % BSIZE + k;
      assert SameByte(d0, i0, d1, i1, i, o + k);
    }
  }

  /** `c` with the bytes from off on replaced by src, longer if need be. */
  function Spliced(c: seq<byte>, off: nat, src: seq<byte>): seq<byte>
    requires off <= |c|
  {
    c[..off] + src + (if off + |src| <= |c| then c[off + |src|..] else [])
  }

  /** The inode after writei() has set its size. */
  function SizedTo(ip: Inode, end: nat): Inode { if end > ip.size then ip.(size := end) else ip }

  /** Sizes name no blocks. */
  lemma SizeKeepsNames(g: Geo, disk: seq<Block>, ino: seq<Inode>, own: map<nat, Slot>, i: nat, end: nat)
    requires NamesOk(g, disk, ino, own) && i < |ino|
    ensures NamesOk(g, disk, ino[i := SizedTo(ino[i], end)], own)
  {
    var ino' := ino[i := SizedTo(ino[i], end)];
    forall c: nat ensures OwnedAt(g, disk, ino', own, c) { assert OwnedAt(g, disk, ino, own, c); }
    forall x: Slot ensures NamedAt(disk, ino', own, x) { assert NamedAt(disk, ino, own, x); }
  }

  /** A write of src at off: the file's new bytes, and all the others' old ones. */
  lemma WroteContent(d0: seq<Block>, i0: seq<Inode>, d1: seq<Block>, i1: seq<Inode>, i: nat, off: nat, src: seq<byte>)
    requires Wrote(d0, i0, d1, i1, i, off, off + |src|, src) && i < |i0| && off <= i0[i].size
    ensures var ino := i1[i := SizedTo(i1[i], off + |src|)];
            Content(d1, ino[i]) == Spliced(Content(d0, i0[i]), off, src) && OthersSame(d0, i0, d1, ino, i)
  {
    var e := off + |src|;
    var ino := i1[i := SizedTo(i1[i], e)];
    var want := Spliced(Content(d0, i0[i]), off, src);
    forall k: nat | k < ino[i].size ensures ByteAt(d1, ino[i], k) == want[k] {
      assert WroteAt(d0, i0, d1, i1, i, off, e, src, i, k);
    }
    forall j: nat | j != i ensures SameAt(d0, i0, d1, ino, j) {
      if j < |i0| {
        forall k: nat | k < i0[j].size ensures ByteAt(d1, ino[j], k) == ByteAt(d0, i0[j], k) {
          assert WroteAt(d0, i0, d1, i1, i, off, e, src, j, k);
        }
      }
    }
  }

  /** With the blocks off..end mapped the size may be set. */
  lemma SizeMapped(disk: seq<Block>, ino: seq<Inode>, i: nat, off: nat, end: nat)
    requires i < |ino| && off <= ino[i].size && end <= MAXFILE * BSIZE && BlocksMapped(disk, ino[i], off, end)
    ensures InodesOk(disk, ino) ==> InodesOk(disk, ino[i := SizedTo(ino[i], end)])
  {
    if InodesOk(disk, ino) {
      var ip := SizedTo(ino[i], end);
      var ino' := ino[i := ip];
      assert InodeOk(disk, ino[i]);
      forall bn: nat ensures MappedAt(disk, ip, bn) {
        assert MappedAt(disk, ino[i], bn) && ReadAt(disk, ino[i], off, end, bn);
      }
      forall j: nat | j < |ino'| ensures InodeOk(disk, ino'[j]) { assert j != i ==> InodeOk(disk, ino[j]); }
    }
  }


  /** What writei() has done when it has set the size. */
  lemma WriteFinished(g: Geo, d0: seq<Block>, i0: seq<Inode>, d1: seq<Block>, i1: seq<Inode>, own: map<nat, Slot>,
                      i: nat,
                      off: nat, src: seq<byte>)
    requires Wrote(d0, i0, d1, i1, i, off, off + |src|, src) && Stays(d0, i0, d1, i1) && NamesOk(g, d1, i1, own)
    requires i < |i0| && off <= i0[i].size && off + |src| <= MAXFILE * BSIZE
             && BlocksMapped(d1, i1[i], off, off + |src|)
    ensures var ino := i1[i := SizedTo(i1[i], off + |src|)];
            && NamesOk(g, d1, ino, own) && (InodesOk(d0, i0) ==> InodesOk(d1, ino))
            && Content(d1, ino[i]) == Spliced(Content(d0, i0[i]), off, src) && OthersSame(d0, i0, d1, ino, i)
  {
    WroteContent(d0, i0, d1, i1, i, off, src);
    SizeKeepsNames(g, d1, i1, own, i, off + |src|);
    InodesStay(d0, i0, d1, i1, i);
    SizeMapped(d1, i1, i, off, off + |src|);
  }

  lemma BlocksStay(d0: seq<Block>, i0: seq<Inode>, d1: seq<Block>, i1: seq<Inode>, i: nat, off: nat, o: nat)
    requires i < |i0| == |i1| && Stays(d0, i0, d1, i1) && BlocksMapped(d0, i0[i], off, o)
    ensures BlocksMapped(d1, i1[i], off, o)
  {
    forall bn: nat ensures ReadAt(d1, i1[i], off, o, bn) {
      assert ReadAt(d0, i0[i], off, o, bn) && StaysAt(d0, i0, d1, i1, i, bn);
    }
  }

  predicate SameAt(d0: seq<Block>, i0: seq<Inode>, d1: seq<Block>, i1: seq<Inode>, j: nat) {
    j < |i0| == |i1| ==> Content(d1, i1[j]) == Content(d0, i0[j])
  }

  /** Every file but i holds the same bytes. */
  ghost predicate OthersSame(d0: seq<Block>, i0: seq<Inode>, d1: seq<Block>, i1: seq<Inode>, i: nat) {
    |i0| == |i1| && forall j: nat {:trigger SameAt(d0, i0, d1, i1, j)} :: j != i ==> SameAt(d0, i0, d1, i1, j)
  }

  lemma OthersStart(disk: seq<Block>, ino: seq<Inode>, i: nat)
    ensures OthersSame(disk, ino, disk, ino, i)
  {
    forall j: nat | j != i ensures SameAt(disk, ino, disk, ino, j) {}
  }

  lemma SameOn(d0: seq<Block>, i0: seq<Inode>, d1: seq<Block>, i1: seq<Inode>, d2: seq<Block>, i2: seq<Inode>, i: nat)
    requires OthersSame(d0, i0, d1, i1, i) && OthersSame(d1, i1, d2, i2, i)
    ensures OthersSame(d0, i0, d2, i2, i)
  {
    forall j: nat | j != i ensures SameAt(d0, i0, d2, i2, j) {
      assert SameAt(d0, i0, d1, i1, j) && SameAt(d1, i1, d2, i2, j);
    }
  }

  predicate AllWithin(txns: seq<nat>, n: nat) { forall k :: 0 <= k < |txns| ==> txns[k] <= n }

  /** How many blocks the loop of writei() has gone through. */
  predicate RoundsOk(off: nat, o: nat, tot: nat, n: nat, rounds: nat) {
    && o == off + tot && tot <= n
    && if tot == 0 then rounds == 0 else rounds == (o - 1) / BSIZE - off / BSIZE + 1 && (tot == n || o % BSIZE == 0)
  }

  lemma NextRound(off: nat, o: nat, tot: nat, n: nat, rounds: nat)
    requires RoundsOk(off, o, tot, n, rounds) && tot < n
    ensures var m := Min(n - tot, BSIZE - o % BSIZE); RoundsOk(off, o + m, tot + m, n, rounds + 1)
  {
  }

  /** Each round logs one data block and at most one bitmap block, and one more bitmap block in
      the round that allocates the indirect block. */
  predicate Charged(g: Geo, l0: set<nat>, ip0: Inode, l1: set<nat>, ip1: Inode, rounds: nat, data: set<nat>,
                    bits: set<nat>) {
    && (ip1.addrs[NDIRECT] != ip0.addrs[NDIRECT] ==> ip0.addrs[NDIRECT] == 0)
    && |data| <= rounds && AreBitBlocks(g, bits)
    && |bits| <= rounds + (if ip1.addrs[NDIRECT] == ip0.addrs[NDIRECT] then 0 else 1)
    && l1 <= l0 + data + bits + (if ip1.addrs[NDIRECT] == 0 then {} else {ip1.addrs[NDIRECT]})
  }

  lemma ChargedOn(g: Geo, l0: set<nat>, ip0: Inode, l1: set<nat>, ip1: Inode, l2: set<nat>, ip2: Inode, rounds: nat,
                  data: set<nat>, bits: set<nat>, addr: nat, more: set<nat>)
    requires Charged(g, l0, ip0, l1, ip1, rounds, data, bits) && Charged(g, l1, ip1, l2, ip2, 1, {addr}, more)
    ensures Charged(g, l0, ip0, l2, ip2, rounds + 1, data + {addr}, bits + more)
  {
  }

  // ---- itrunc() ----------------------------------------------------------------------------------

  /** Only metadata blocks differ. */
  ghost predicate OnlyMeta(g: Geo, d0: seq<Block>, d1: seq<Block>) {
    |d0| == |d1| == g.size && forall c :: g.Meta() <= c < g.size ==> d1[c] == d0[c]
  }

  /** The blocks still in use when the first n data blocks of inode i have been freed. */
  function Left(own: map<nat, Slot>, i: nat, n: nat): set<nat> {
    set b | b in own && !(own[b].Data? && own[b].i == i && own[b].bn < n)
  }

  lemma LeftNone(own: map<nat, Slot>, i: nat)
    ensures Left(own, i, 0) == own.Keys
  {
  }

  lemma LeftNext(g: Geo, disk: seq<Block>, ino: seq<Inode>, own: map<nat, Slot>, i: nat, n: nat)
    requires g.Ok() && NamesOk(g, disk, ino, own) && i < |ino| && n < MAXFILE
    ensures var b := Addr(disk, ino[i], n);
            if b == 0 then Left(own, i, n + 1) == Left(own, i, n)
            else b in Left(own, i, n) && g.Meta() <= b < g.size && Left(own, i, n + 1) == Left(own, i, n) - {b}
  {
    NamedIsOwned(g, disk, ino, own, Data(i, n));
    forall b | b in own && own[b] == Data(i, n) ensures b == Addr(disk, ino[i], n) && b != 0 {
      assert OwnedAt(g, disk, ino, own, b);
    }
  }

  lemma LeftLast(g: Geo, disk: seq<Block>, ino: seq<Inode>, own: map<nat, Slot>, i: nat)
    requires g.Ok() && NamesOk(g, disk, ino, own) && i < |ino| && ino[i].addrs[NDIRECT] != 0
    ensures var b := ino[i].addrs[NDIRECT];
            b in Left(own, i, MAXFILE) && g.Meta() <= b < g.size && Without(own, i).Keys == Left(own, i, MAXFILE) - {b}
  {
    NamedIsOwned(g, disk, ino, own, Ind(i));
    forall b | b in own && own[b].i == i ensures own[b] == Ind(i) ==> b == ino[i].addrs[NDIRECT] {
      assert OwnedAt(g, disk, ino, own, b);
    }
    forall b | b in own ensures SlotOk(|ino|, own[b]) { assert OwnedAt(g, disk, ino, own, b); }
  }

  lemma LeftDirect(g: Geo, disk: seq<Block>, ino: seq<Inode>, own: map<nat, Slot>, i: nat)
    requires g.Ok() && NamesOk(g, disk, ino, own) && i < |ino| && ino[i].addrs[NDIRECT] == 0
    ensures Without(own, i).Keys == Left(own, i, NDIRECT)
  {
    forall b | b in own && own[b].i == i ensures own[b].Data? && own[b].bn < NDIRECT {
      assert OwnedAt(g, disk, ino, own, b);
    }
  }

  /** Metadata blocks hold no byte of a file. */
  lemma MetaHoldsNoBytes(g: Geo, d0: seq<Block>, ino: seq<Inode>, own: map<nat, Slot>, d1: seq<Block>, i: nat)
    requires g.Ok() && NamesOk(g, d0, ino, own) && OnlyMeta(g, d0, d1)
    ensures NamesOk(g, d1, ino, own) && Mapped(d0, ino, d1, ino, Ind(i), 0)
  {
    forall x: Slot | SlotOk(|ino|, x) ensures Name(d1, ino, x) == Name(d0, ino, x) {
      NamedIsOwned(g, d0, ino, own, Ind(x.i));
    }
    forall c: nat ensures OwnedAt(g, d1, ino, own, c) { assert OwnedAt(g, d0, ino, own, c); }
    forall x: Slot ensures NamedAt(d1, ino, own, x) { assert NamedAt(d0, ino, own, x); }
    forall j: nat, m: nat ensures AddrIs(d0, ino, d1, ino, Ind(i), 0, j, m) {
      if j < |ino| && m < MAXFILE { assert Name(d1, ino, Data(j, m)) == Name(d0, ino, Data(j, m)); }
    }
    forall j: nat, k: nat ensures SameByte(d0, ino, d1, ino, j, k) {
      assert AddrIs(d0, ino, d1, ino, Ind(i), 0, j, k / BSIZE);
      if j < |ino| && k / BSIZE < MAXFILE { NamedIsOwned(g, d0, ino, own, Data(j, k / BSIZE)); }
    }
  }

  lemma Truncated(g: Geo, d0: seq<Block>, ino: seq<Inode>, own: map<nat, Slot>, d1: seq<Block>, i: nat)
    requires g.Ok() && NamesOk(g, d0, ino, own) && OnlyMeta(g, d0, d1) && i < |ino|
    ensures NamesOk(g, d1, ino[i := Empty()], Without(own, i)) && OthersSame(d0, ino, d1, ino[i := Empty()], i)
    ensures InodesOk(d0, ino) ==> InodesOk(d1, ino[i := Empty()])
  {
    MetaHoldsNoBytes(g, d0, ino, own, d1, i);
    DropNames(g, d1, ino, own, i);
    MappedStays(d0, ino, d1, ino, Ind(i), 0);
    InodesStay(d0, ino, d1, ino, i);
    var ino' := ino[i := Empty()];
    if InodesOk(d0, ino) {
      forall j: nat | j < |ino'| ensures InodeOk(d1, ino'[j]) { assert InodeOk(d1, ino[j]); }
    }
    forall j: nat | j != i ensures SameAt(d0, ino, d1, ino', j) {
      if j < |ino| {
        forall k: nat | k < ino[j].size ensures ByteAt(d1, ino[j], k) == ByteAt(d0, ino[j], k) {
          assert SameByte(d0, ino, d1, ino, j, k);
        }
      }
    }
  }

  // ---- filewrite() ---------------------------------------------------------------------------------

  const CHUNK: nat := 3072                   // ((MAXOPBLOCKS - 1 - 1 - 2) / 2) * BSIZE

  /** Spliced() without its precondition. */
  function Grown(c: seq<byte>, off: nat, src: seq<byte>): seq<byte> { if off <= |c| then Spliced(c, off, src) else c }

  lemma GrownNone(c: seq<byte>, off: nat, src: seq<byte>)
    ensures Grown(c, off, src[..0]) == c
  {
  }

  /** Two chunks, one after the other, are one longer write. */
  lemma GrownTwice(c: seq<byte>, off: nat, src: seq<byte>, done: nat, n: nat)
    requires done + n <= |src| && off + done <= |Grown(c, off, src[..done])| && (done > 0 ==> off <= |c|)
    ensures Spliced(Grown(c, off, src[..done]), off + done, src[done..done + n]) == Grown(c, off, src[..done + n])
  {
  }

  /** The bytes of a file c0 once `done` bytes of src have been written to it from off on. */
  predicate WrittenTo(c0: seq<byte>, off: nat, src: seq<byte>, done: nat, c: seq<byte>) {
    done <= |src| && c == Grown(c0, off, src[..done])
  }

  /** A file that has taken `done` bytes is long enough for the next ones, if it ever was. */
  lemma LongEnough(c0: seq<byte>, off: nat, src: seq<byte>, done: nat, c: seq<byte>)
    requires WrittenTo(c0, off, src, done, c) && (done > 0 ==> off <= |c0|)
    ensures off + done <= |c| <==> off <= |c0|
  {
  }

  lemma ChunkWritten(c0: seq<byte>, off: nat, src: seq<byte>, done: nat, n: nat, c1: seq<byte>, c2: seq<byte>)
    requires WrittenTo(c0, off, src, done, c1) && (done > 0 ==> off <= |c0|)
    requires done + n <= |src| && off + done <= |c1| && c2 == Spliced(c1, off + done, src[done..done + n])
    ensures WrittenTo(c0, off, src, done + n, c2)
  {
    GrownTwice(c0, off, src, done, n);
  }

  /** The most blocks one transaction of filewrite() logs. */
  function TxnBound(g: Geo): nat { 6 + Min(5, g.Bitmaps()) }

  /** A chunk of at most three blocks' length touches at most four blocks wherever it starts, so its
      transaction logs at most 1 + 1 + 4 blocks and the bitmap blocks of at most five allocations. */
  lemma ChunkBound(g: Geo, logged: set<nat>, data: set<nat>, bits: set<nat>, off: nat, n: nat, rounds: nat, ind: nat,
                   ib: nat)
    requires 0 < n <= CHUNK && rounds == (off + n - 1) / BSIZE - off / BSIZE + 1
    requires |data| <= rounds && AreBitBlocks(g, bits) && |bits| <= rounds + 1 && logged <= data + bits + {ind, ib}
    ensures |logged| <= TxnBound(g)
  {
    RangeSize(bits, g.bmapstart, g.Meta());
    SubsetSize(logged, data + bits + {ind, ib});
  }

  /** The names have stayed the same or there are more of them. */
  predicate Grew(own0: map<nat, Slot>, own1: map<nat, Slot>) { own1 == own0 || own0.Keys < own1.Keys }

  /** What reading the bytes off..o of file i has done to the volume: nothing, exactly if their blocks
      were mapped. */
  ghost predicate Traced(d0: seq<Block>, i0: seq<Inode>, l0: set<nat>, own0: map<nat, Slot>, d1: seq<Block>,
                         i1: seq<Inode>, l1: set<nat>, own1: map<nat, Slot>, i: nat, off: nat, o: nat) {
    && i < |i0| && Grew(own0, own1) && (own1 == own0 <==> BlocksMapped(d0, i0[i], off, o))
    && (own1 == own0 ==> d1 == d0 && i1 == i0 && l1 == l0)
  }

  lemma TracedOn(d0: seq<Block>, i0: seq<Inode>, l0: set<nat>, own0: map<nat, Slot>, d1: seq<Block>, i1: seq<Inode>,
                 l1: set<nat>, own1: map<nat, Slot>, d2: seq<Block>, i2: seq<Inode>, l2: set<nat>,
                 own2: map<nat, Slot>, i: nat, off: nat, o: nat, m: nat, end: nat, ok: bool)
    requires Traced(d0, i0, l0, own0, d1, i1, l1, own1, i, off, o) && i < |i1| && o / BSIZE < MAXFILE
    requires off <= o < end && m == Min(end - o, BSIZE - o % BSIZE) && (o == off || o % BSIZE == 0)
    requires Addr(d1, i1[i], o / BSIZE) != 0 ==> ok && d2 == d1 && i2 == i1 && l2 == l1 && own2 == own1
    requires ok && Addr(d1, i1[i], o / BSIZE) == 0 ==> own1.Keys < own2.Keys
    ensures ok ==> Traced(d0, i0, l0, own0, d2, i2, l2, own2, i, off, o + m)
    ensures BlocksMapped(d0, i0[i], off, end) ==> ok
  {
    BlocksNext(d0, i0[i], off, o, m, end);
  }

  /** What naming a block x through the indirect block has taken: b, and the indirect block if there was none. */
  predicate FarNamed(g: Geo, l0: set<nat>, own0: map<nat, Slot>, was: nat, l1: set<nat>, own1: map<nat, Slot>, ind: nat,
                     x: Slot, b: nat, bits: set<nat>) {
    && b !in own0 && (ind != was ==> was == 0 && ind !in own0)
    && own1 == (if ind == was then own0 else own0[ind := Ind(x.i)])[b := x]
    && AreBitBlocks(g, bits) && |bits| <= (if ind == was then 1 else 2)
    && l1 <= l0 + bits + {b, ind}
  }

  lemma FarIsNamed(g: Geo, l0: set<nat>, own0: map<nat, Slot>, was: nat, l1: set<nat>, own1: map<nat, Slot>,
                   l2: set<nat>, own2: map<nat, Slot>, ind: nat, x: Slot, b: nat, bits: set<nat>)
    requires g.Ok() && ind != 0 && b !in own1 && own2 == own1[b := x] && b < g.size
    requires l2 == l1 + {g.BitBlock(b), b, ind}
    requires if was != 0 then ind == was && l1 == l0 && own1 == own0 && bits == {}
             else ind !in own0 && own1 == own0[ind := Ind(x.i)] && bits == {g.BitBlock(ind)} && ind < g.size
                  && l1 == l0 + bits + {ind}
    ensures FarNamed(g, l0, own0, was, l2, own2, ind, x, b, bits + {g.BitBlock(b)})
  {
  }

  class Volume {
    const g: Geo
    var disk: seq<Block>
    var ino: seq<Inode>
    var logged: set<nat>                     // blocks passed to log_write() since begin_op()
    ghost var own: map<nat, Slot>

    /** Set bits are metadata plus named blocks, no block is named twice. */
    ghost predicate Sound()
      reads this
    {
      NamesOk(g, disk, ino, own) && BitsOk(g, disk, own.Keys) && |ino| == g.ninodes
    }

    ghost predicate Valid()
      reads this
    {
      Sound() && InodesOk(disk, ino)
    }

    /** The volume on a disk image (module Mkfs says which images mkfs makes). */
    constructor (geo: Geo, image: seq<Block>, inodes: seq<Inode>, ghost names: map<nat, Slot>)
      requires NamesOk(geo, image, inodes, names) && BitsOk(geo, image, names.Keys) && |inodes| == geo.ninodes
      ensures Sound() && (Valid() <==> InodesOk(image, inodes))
      ensures g == geo && disk == image && ino == inodes && own == names && logged == {}
    {
      g, disk, ino, logged, own := geo, image, inodes, {}, names;
    }

    /** The inner loop of balloc(): the first clear bit of the bitmap block for block b, if any. */
    method FindClear(b: nat) returns (bi: nat)
      requires g.Ok() && |disk| == g.size && b < g.size && b % BPB == 0 && AllSet(g, disk, b)
      ensures bi <= BPB && AllSet(g, disk, b + bi)
      ensures bi < BPB && b + bi < g.size ==> !BitOf(g, disk, b + bi)
    {
      var bp := disk[g.BitBlock(b)];
      bi := 0;
      while bi < BPB && b + bi < g.size
        invariant 0 <= bi <= BPB && AllSet(g, disk, b + bi)
      {
        InBlock(g, disk, b, bi);
        if bp[bi / 8] & Mask(bi % 8) == 0 {
          return;
        }
        bi := bi + 1;
      }
    }

    /** balloc(): the first free block, or none. */
    method Balloc(ghost used: set<nat>) returns (ok: bool, r: nat)
      requires BitsOk(g, disk, used)
      modifies `disk, `logged
      ensures ok ==> g.Meta() <= r < g.size && r !in used && forall c :: g.Meta() <= c < r ==> c in used
      ensures ok ==> disk == Taken(g, old(disk), r) && logged == old(logged) + {g.BitBlock(r), r}
      ensures !ok ==> disk == old(disk) && logged == old(logged) && forall c :: g.Meta() <= c < g.size ==> c in used
    {
      var b := 0;
      while b < g.size
        invariant disk == old(disk) && logged == old(logged)
        invariant b % BPB == 0 && AllSet(g, disk, b)
      {
        var bi := FindClear(b);
        if bi < BPB && b + bi < g.size {
          r := b + bi;
          InBlock(g, disk, b, bi);
          SetAreUsed(g, disk, used, r);
          assert BitAt(g, disk, used, r);
          var bp := disk[g.BitBlock(b)];
          disk := disk[g.BitBlock(b) := SetBit(bp, bi)];
          logged := logged + {g.BitBlock(b)};
          disk := disk[r := Zeroes()];
          logged := logged + {r};
          return true, r;
        }
        b := b + BPB;
      }
      SetAreUsed(g, disk, used, g.size);
      return false, 0;
    }

    /** bfree(): its panic needs a clear bit, which a used block does not have. */
    method Bfree(b: nat, ghost used: set<nat>)
      requires BitsOk(g, disk, used) && b in used && g.Meta() <= b < g.size
      modifies `disk, `logged
      ensures disk == WithoutBit(g, old(disk), b) && BitsOk(g, disk, used - {b})
      ensures logged == old(logged) + {g.BitBlock(b)}
    {
      assert BitAt(g, disk, used, b);
      ClearOneBit(g, disk, used, b);
      var bp := disk[g.BitBlock(b)];
      var bi := b % BPB;
      assert bp[bi / 8] & Mask(bi % 8) != 0;
      disk := disk[g.BitBlock(b) := bp[bi / 8 := bp[bi / 8] & !Mask(bi % 8)]];
      logged := logged + {g.BitBlock(b)};
    }

    /** The bmap() line that fills a direct entry. */
    method GrowDirect(i: nat, bn: nat) returns (ok: bool, addr: nat)
      requires Sound() && i < |ino| && bn < NDIRECT && ino[i].addrs[bn] == 0
      modifies `disk, `ino, `logged, `own
      ensures ok ==> Sound() && Mapped(old(disk), old(ino), disk, ino, Data(i, bn), addr)
      ensures ok ==>
                ino[i].addrs[bn] == addr && addr !in old(own) && own == old(own)[addr := Data(i, bn)]
                && g.Meta() <= addr < g.size && disk[addr] == Zeroes()
      ensures ok ==>
                ino[i].addrs[NDIRECT] == old(ino[i].addrs[NDIRECT]) && logged == old(logged) + {g.BitBlock(addr), addr}
    {
      ok, addr := Balloc(own.Keys);
      if ok {
        DirectTaken(g, old(disk), ino, own, i, bn, addr);
        ino := SetAddr(ino, i, bn, addr);
        own := own[addr := Data(i, bn)];
      }
    }

    /** The bmap() line that allocates the indirect block. */
    method GrowIndirect(i: nat) returns (ok: bool, addr: nat)
      requires Sound() && i < |ino| && ino[i].addrs[NDIRECT] == 0
      modifies `disk, `ino, `logged, `own
      ensures ok ==> Sound() && Mapped(old(disk), old(ino), disk, ino, Ind(i), addr)
      ensures ok ==>
                ino[i].addrs[NDIRECT] == addr && addr !in old(own) && own == old(own)[addr := Ind(i)]
                && g.Meta() <= addr < g.size && disk[addr] == Zeroes()
      ensures ok ==> logged == old(logged) + {g.BitBlock(addr), addr}
    {
      ok, addr := Balloc(own.Keys);
      if ok {
        IndirectTaken(g, old(disk), ino, own, i, addr);
        ino := SetAddr(ino, i, NDIRECT, addr);
        own := own[addr := Ind(i)];
      }
    }

    /** The bmap() lines that fill an entry of the indirect block. */
    method GrowEntry(i: nat, bn: nat) returns (ok: bool, addr: nat)
      requires Sound() && i < |ino| && NDIRECT <= bn < MAXFILE && ino[i].addrs[NDIRECT] != 0
               && Addr(disk, ino[i], bn) == 0
      modifies `disk, `logged, `own
      ensures ok ==> Sound() && Mapped(old(disk), ino, disk, ino, Data(i, bn), addr)
      ensures ok ==>
                Addr(disk, ino[i], bn) == addr && addr !in old(own) && own == old(own)[addr := Data(i, bn)]
                && g.Meta() <= addr < g.size && disk[addr] == Zeroes()
      ensures ok ==> logged == old(logged) + {g.BitBlock(addr), addr, ino[i].addrs[NDIRECT]}
    {
      NamedIsOwned(g, disk, ino, own, Ind(i));
      var ind := ino[i].addrs[NDIRECT];
      ok, addr := Balloc(own.Keys);
      if ok {
        var table := StoreWord(disk[ind], bn - NDIRECT, addr);
        EntryTaken(g, old(disk), ino, own, i, bn, addr, table);
        EntryTakenMaps(g, old(disk), ino, own, i, bn, addr, table);
        disk := disk[ind := table];
        logged := logged + {ind};
        own := own[addr := Data(i, bn)];
      }
    }

    /** bmap(): the block of file i that holds its bn-th block, allocated if there was none.  `bits`
        are the bitmap blocks it logged. */
    method Bmap(i: nat, bn: nat) returns (ok: bool, addr: nat, ghost bits: set<nat>)
      requires Sound() && i < |ino| && bn < MAXFILE
      modifies `disk, `ino, `logged, `own
      ensures ok ==> Sound() && Mapped(old(disk), old(ino), disk, ino, Data(i, bn), addr)
      ensures ok ==> Stays(old(disk), old(ino), disk, ino) && (old(InodesOk(disk, ino)) ==> InodesOk(disk, ino))
      ensures ok ==> addr == Addr(disk, ino[i], bn) && addr in own && own[addr] == Data(i, bn) && 0 < addr < g.size
      ensures old(Addr(disk, ino[i], bn)) != 0 ==>
                ok && disk == old(disk) && ino == old(ino) && logged == old(logged) && own == old(own) && bits == {}
      ensures ok && old(Addr(disk, ino[i], bn)) == 0 ==> disk[addr] == Zeroes() && addr !in old(own)
      ensures ok && old(Addr(disk, ino[i], bn)) == 0 ==>
                var ind, was := ino[i].addrs[NDIRECT], old(ino[i].addrs[NDIRECT]);
                && (ind != was ==> was == 0 && ind !in old(own))
                && own == (if ind == was then old(own) else old(own)[ind := Ind(i)])[addr := Data(i, bn)]
                && AreBitBlocks(g, bits) && |bits| <= (if ind == was then 1 else 2)
                && logged <= old(logged) + bits + {addr} + (if bn < NDIRECT then {} else {ind})
    {
      if bn < NDIRECT {
        ok, addr, bits := BmapDirect(i, bn);
      } else {
        ok, addr, bits := BmapFar(i, bn);
      }
      if ok {
        MappedStays(old(disk), old(ino), disk, ino, Data(i, bn), addr);
        InodesStay(old(disk), old(ino), disk, ino, i);
      }
    }

    method BmapDirect(i: nat, bn: nat) returns (ok: bool, addr: nat, ghost bits: set<nat>)
      requires Sound() && i < |ino| && bn < NDIRECT
      modifies `disk, `ino, `logged, `own
      ensures ok ==> Sound() && Mapped(old(disk), old(ino), disk, ino, Data(i, bn), addr)
      ensures ok ==> addr == Addr(disk, ino[i], bn) && addr in own && own[addr] == Data(i, bn) && 0 < addr < g.size
      ensures old(ino[i].addrs[bn]) != 0 ==>
                ok && disk == old(disk) && ino == old(ino) && logged == old(logged) && own == old(own) && bits == {}
      ensures ok && old(ino[i].addrs[bn]) == 0 ==>
                && disk[addr] == Zeroes() && addr !in old(own) && own == old(own)[addr := Data(i, bn)]
                && ino[i].addrs[NDIRECT] == old(ino[i].addrs[NDIRECT])
                && AreBitBlocks(g, bits) && |bits| <= 1 && logged <= old(logged) + bits + {addr}
    {
      NamedIsOwned(g, disk, ino, own, Data(i, bn));
      ok, addr, bits := true, ino[i].addrs[bn], {};
      if addr == 0 {
        ok, addr := GrowDirect(i, bn);
        bits := {g.BitBlock(addr)};
      } else {
        MapStays(disk, ino, i, bn);
      }
    }

    method BmapFar(i: nat, bn: nat) returns (ok: bool, addr: nat, ghost bits: set<nat>)
      requires Sound() && i < |ino| && NDIRECT <= bn < MAXFILE
      modifies `disk, `ino, `logged, `own
      ensures ok ==> Sound() && Mapped(old(disk), old(ino), disk, ino, Data(i, bn), addr)
      ensures ok ==> addr == Addr(disk, ino[i], bn) && addr in own && own[addr] == Data(i, bn) && 0 < addr < g.size
      ensures old(Addr(disk, ino[i], bn)) != 0 ==>
                ok && disk == old(disk) && ino == old(ino) && logged == old(logged) && own == old(own) && bits == {}
      ensures ok && old(Addr(disk, ino[i], bn)) == 0 ==>
                && disk[addr] == Zeroes()
                && FarNamed(g, old(logged), old(own), old(ino[i].addrs[NDIRECT]), logged, own, ino[i].addrs[NDIRECT],
                            Data(i, bn), addr, bits)
    {
      ghost var c;
      addr := 0;
      ok, c, bits := NeedIndirect(i);
      if !ok { return; }
      addr := Addr(disk, ino[i], bn);
      ghost var mid, imid := disk, ino;
      assert AddrIs(old(disk), old(ino), mid, imid, Ind(i), c, i, bn);
      NamedIsOwned(g, disk, ino, own, Data(i, bn));
      if addr == 0 {
        ghost var l1, own1, bits1 := logged, own, bits;
        ok, addr := GrowEntry(i, bn);
        if !ok { return; }
        bits := bits + {g.BitBlock(addr)};
        FarIsNamed(g, old(logged), old(own), old(ino[i].addrs[NDIRECT]), l1, own1, logged, own, ino[i].addrs[NDIRECT],
                   Data(i, bn), addr, bits1);
      } else {
        MapStays(disk, ino, i, bn);
      }
      MappedOn(old(disk), old(ino), mid, imid, disk, ino, Data(i, bn), addr, c);
    }

    /** The part of bmap() that sees to it that there is an indirect block. */
    method NeedIndirect(i: nat) returns (ok: bool, ghost c: nat, ghost bits: set<nat>)
      requires Sound() && i < |ino|
      modifies `disk, `ino, `logged, `own
      ensures ok ==> Sound() && Mapped(old(disk), old(ino), disk, ino, Ind(i), c) && ino[i].addrs[NDIRECT] != 0
      ensures old(ino[i].addrs[NDIRECT]) != 0 ==>
                ok && disk == old(disk) && ino == old(ino) && logged == old(logged) && own == old(own) && bits == {}
      ensures ok && old(ino[i].addrs[NDIRECT]) == 0 ==>
                var ind := ino[i].addrs[NDIRECT];
                && ind !in old(own) && own == old(own)[ind := Ind(i)] && bits == {g.BitBlock(ind)}
                && g.Meta() <= ind < g.size && logged == old(logged) + bits + {ind}
    {
      ok, c, bits := true, 0, {};
      if ino[i].addrs[NDIRECT] == 0 {
        var addr;
        ok, addr := GrowIndirect(i);
        if !ok { return; }
        bits := {g.BitBlock(addr)};
        c := addr;
      } else {
        Unmoved(disk, ino, i);
      }
    }

    /** One round of the loop in readi(): m bytes from o on, inside one block. */
    method ReadBlock(i: nat, o: nat, m: nat, ghost d0: seq<Block>, ghost i0: seq<Inode>)
        returns (ok: bool, piece: seq<byte>)
      requires Sound() && i < |ino| && o / BSIZE < MAXFILE && o % BSIZE + m <= BSIZE
      requires SameBytes(d0, i0, disk, ino) && o + m <= i0[i].size
      modifies `disk, `ino, `logged, `own
      ensures ok ==> Sound() && SameBytes(d0, i0, disk, ino) && piece == Content(d0, i0[i])[o..o + m]
      ensures old(Addr(disk, ino[i], o / BSIZE)) != 0 ==>
                ok && disk == old(disk) && ino == old(ino) && logged == old(logged) && own == old(own)
      ensures ok && old(Addr(disk, ino[i], o / BSIZE)) == 0 ==> old(own.Keys) < own.Keys
    {
      var addr;
      ghost var bits;
      piece := [];
      ok, addr, bits := Bmap(i, o / BSIZE);
      if !ok { return; }
      SameBytesOn(d0, i0, old(disk), old(ino), disk, ino, Data(i, o / BSIZE), addr);
      ReadChunk(d0, i0, disk, ino, i, o, m);
      piece := disk[addr][o % BSIZE..o % BSIZE + m];
    }

    /** One turn of the loop in readi(), seen from the whole read. */
    method ReadOne(i: nat, off: nat, o: nat, m: nat, end: nat, dst: seq<byte>, ghost d0: seq<Block>,
                   ghost i0: seq<Inode>, ghost l0: set<nat>, ghost own0: map<nat, Slot>)
        returns (ok: bool, more: seq<byte>)
      requires Sound() && i < |ino| && off <= o < end && m == Min(end - o, BSIZE - o % BSIZE)
      requires o / BSIZE < MAXFILE && (o == off || o % BSIZE == 0)
      requires SameBytes(d0, i0, disk, ino) && end <= i0[i].size && dst == Content(d0, i0[i])[off..o]
      requires Traced(d0, i0, l0, own0, disk, ino, logged, own, i, off, o)
      modifies `disk, `ino, `logged, `own
      ensures ok ==> Sound() && SameBytes(d0, i0, disk, ino) && more == Content(d0, i0[i])[off..o + m]
      ensures ok ==> Traced(d0, i0, l0, own0, disk, ino, logged, own, i, off, o + m)
      ensures BlocksMapped(d0, i0[i], off, end) ==> ok
    {
      var piece;
      ok, piece := ReadBlock(i, o, m, d0, i0);
      more := dst + piece;
      Slices(Content(d0, i0[i]), off, o, o + m);
      TracedOn(d0, i0, l0, own0, old(disk), old(ino), old(logged), old(own), disk, ino, logged, own, i, off, o, m, end,
          ok);
    }

    /** The loop of readi(). */
    method ReadAll(i: nat, off: nat, end: nat) returns (ok: bool, dst: seq<byte>)
      requires Sound() && i < |ino| && off <= end <= ino[i].size
      modifies `disk, `ino, `logged, `own
      ensures ok ==> Sound() && SameBytes(old(disk), old(ino), disk, ino)
      ensures ok ==> dst == old(Content(disk, ino[i]))[off..end]
      ensures ok ==> Traced(old(disk), old(ino), old(logged), old(own), disk, ino, logged, own, i, off, end)
      ensures BlocksMapped(old(disk), old(ino[i]), off, end) ==> ok
    {
      ok, dst := true, [];
      SameBytesSelf(disk, ino);
      NothingMapped(disk, ino[i], off);
      var o := off;
      while o < end
        invariant off <= o <= end && (o < end ==> o == off || o % BSIZE == 0)
        invariant Sound() && SameBytes(old(disk), old(ino), disk, ino) && dst == old(Content(disk, ino[i]))[off..o]
        invariant Traced(old(disk), old(ino), old(logged), old(own), disk, ino, logged, own, i, off, o)
      {
        var m := Min(end - o, BSIZE - o % BSIZE);
        if o / BSIZE >= MAXFILE {
          ok := false;
          assert !ReadAt(old(disk), old(ino[i]), off, end, o / BSIZE);
          return;
        }
        ok, dst := ReadOne(i, off, o, m, end, dst, old(disk), old(ino), old(logged), old(own));
        if !ok { return; }
        o := o + m;
      }
    }

    /** readi(): up to n bytes from off on, a block that is not mapped reading as zeroes.  `ok` is false
        for a panic of bmap() or balloc().  It allocates exactly if a block it reads is not mapped; on a
        valid volume it changes nothing. */
    method Readi(i: nat, off: nat, n: nat) returns (ok: bool, dst: seq<byte>)
      requires Sound() && i < |ino| && off < WORD && n < WORD
      modifies `disk, `ino, `logged, `own
      ensures ok ==> dst == ReadOf(old(Content(disk, ino[i])), off, n)
      ensures ok ==> Sound() && SameBytes(old(disk), old(ino), disk, ino)
      ensures ok ==> (own == old(own) <==> ReadsMapped(old(disk), old(ino[i]), off, n))
      ensures ReadsMapped(old(disk), old(ino[i]), off, n) ==>
                ok && disk == old(disk) && ino == old(ino) && logged == old(logged) && own == old(own)
      ensures old(Valid()) ==> ReadsMapped(old(disk), old(ino[i]), off, n)
    {
      ok, dst := true, [];
      ValidReads(disk, ino, i, off, n);
      if off > ino[i].size || (off + n) % WORD < off {
        SameBytesSelf(disk, ino);
        return;
      }
      var end := Min(off + n, ino[i].size);
      ok, dst := ReadAll(i, off, end);
    }

    /** One round of the loop in writei(). */
    method PutChunk(i: nat, off: nat, piece: seq<byte>) returns (ok: bool, addr: nat, ghost bits: set<nat>)
      requires Sound() && i < |ino| && off / BSIZE < MAXFILE && off % BSIZE + |piece| <= BSIZE
      modifies `disk, `ino, `logged, `own
      ensures ok ==> Sound() && Wrote(old(disk), old(ino), disk, ino, i, off, off + |piece|, piece)
      ensures ok ==> Stays(old(disk), old(ino), disk, ino) && Addr(disk, ino[i], off / BSIZE) != 0
      ensures ok ==> Charged(g, old(logged), old(ino[i]), logged, ino[i], 1, {addr}, bits)
    {
      var bn := off / BSIZE;
      ok, addr, bits := Bmap(i, bn);
      if ok {
        ghost var d1 := disk;
        DataWrote(g, disk, ino, own, i, addr, off, piece);
        DataHoldsNoBits(g, disk, own.Keys, addr, Patched(disk[addr], off % BSIZE, piece));
        disk := disk[addr := Patched(disk[addr], off % BSIZE, piece)];
        logged := logged + {addr};
        MappedWrote(old(disk), old(ino), d1, ino, disk, Data(i, bn), addr, off, off + |piece|, piece);
        UnmovingStays(d1, ino, disk, ino, i);
        StaysOn(old(disk), old(ino), d1, ino, disk, ino);
        assert AddrIs(d1, ino, disk, ino, Ind(i), 0, i, bn);
      }
    }

    /** One turn of that loop, seen from the whole write. */
    method WriteOne(i: nat, off: nat, o: nat, m: nat, src: seq<byte>, ghost d0: seq<Block>, ghost i0: seq<Inode>)
        returns (ok: bool, addr: nat, ghost bits: set<nat>)
      requires Sound() && i < |ino| && off <= o && o + m <= off + |src| <= MAXFILE * BSIZE && o < off + |src|
      requires m == Min(off + |src| - o, BSIZE - o % BSIZE) && (o == off || o % BSIZE == 0)
      requires Wrote(d0, i0, disk, ino, i, off, o, src) && Stays(d0, i0, disk, ino)
      requires BlocksMapped(disk, ino[i], off, o)
      modifies `disk, `ino, `logged, `own
      ensures ok ==> Sound() && Wrote(d0, i0, disk, ino, i, off, o + m, src) && Stays(d0, i0, disk, ino)
      ensures ok ==> BlocksMapped(disk, ino[i], off, o + m)
      ensures ok ==> Charged(g, old(logged), old(ino[i]), logged, ino[i], 1, {addr}, bits)
    {
      var piece := src[o - off..o - off + m];
      ok, addr, bits := PutChunk(i, o, piece);
      if ok {
        WroteOn(d0, i0, old(disk), old(ino), disk, ino, i, off, o, o + m, src, piece);
        StaysOn(d0, i0, old(disk), old(ino), disk, ino);
        BlocksStay(old(disk), old(ino), disk, ino, i, off, o);
        BlocksNext(disk, ino[i], off, o, m, off + |src|);
      }
    }

    /** The loop of writei(): the bytes from off on are in place; the size is not yet set.  `rounds`
        counts the blocks it went through, `data` and `bits` are the data and bitmap blocks logged. */
    method WriteAll(i: nat, off: nat, src: seq<byte>)
        returns (ok: bool, ghost rounds: nat, ghost data: set<nat>, ghost bits: set<nat>)
      requires Sound() && i < |ino| && off + |src| <= MAXFILE * BSIZE
      modifies `disk, `ino, `logged, `own
      ensures ok ==> Sound() && Wrote(old(disk), old(ino), disk, ino, i, off, off + |src|, src)
      ensures ok ==> Stays(old(disk), old(ino), disk, ino) && BlocksMapped(disk, ino[i], off, off + |src|)
      ensures ok ==> Charged(g, old(logged), old(ino[i]), logged, ino[i], rounds, data, bits)
      ensures ok && |src| > 0 ==> rounds == (off + |src| - 1) / BSIZE - off / BSIZE + 1
    {
      ok, rounds, data, bits := true, 0, {}, {};
      var o: nat, tot: nat := off, 0;
      NothingWrote(disk, ino, i, off, src);
      StaysSelf(disk, ino);
      NothingMapped(disk, ino[i], off);
      while tot < |src|
        invariant RoundsOk(off, o, tot, |src|, rounds) && Sound()
        invariant Wrote(old(disk), old(ino), disk, ino, i, off, o, src) && Stays(old(disk), old(ino), disk, ino)
        invariant BlocksMapped(disk, ino[i], off, o)
        invariant Charged(g, old(logged), old(ino[i]), logged, ino[i], rounds, data, bits)
      {
        var m := Min(|src| - tot, BSIZE - o % BSIZE);
        NextRound(off, o, tot, |src|, rounds);
        ghost var ip1, l1, more := ino[i], logged, {};
        var addr;
        ok, addr, more := WriteOne(i, off, o, m, src, old(disk), old(ino));
        if !ok { return; }
        ChargedOn(g, old(logged), old(ino[i]), l1, ip1, logged, ino[i], rounds, data, bits, addr, more);
        rounds, data, bits := rounds + 1, data + {addr}, bits + more;
        o, tot := o + m, tot + m;
      }
    }

    /** writei(): -1 and no change, or the bytes from off on replaced by src. */
    method Writei(i: nat, off: nat, src: seq<byte>)
        returns (ok: bool, r: int, ghost rounds: nat, ghost data: set<nat>, ghost bits: set<nat>)
      requires Sound() && i < |ino| && off < WORD && |src| < WORD
      modifies `disk, `ino, `logged, `own
      ensures r == if off > old(ino[i].size) || off + |src| > MAXFILE * BSIZE then -1 else |src|
      ensures r == -1 ==> ok && disk == old(disk) && ino == old(ino) && logged == old(logged) && own == old(own)
      ensures ok ==> Sound() && |ino| == old(|ino|) && (old(Valid()) ==> Valid())
      ensures ok && r >= 0 ==> Content(disk, ino[i]) == Spliced(old(Content(disk, ino[i])), off, src)
      ensures ok ==> OthersSame(old(disk), old(ino), disk, ino, i)
      ensures ok && r > 0 ==> rounds == (off + |src| - 1) / BSIZE - off / BSIZE + 1
      ensures ok && r > 0 ==> |data| <= rounds && AreBitBlocks(g, bits) && |bits| <= rounds + 1
      ensures ok && r > 0 ==> logged <= old(logged) + data + bits + {ino[i].addrs[NDIRECT], g.InodeBlock(i)}
    {
      ok, r, rounds, data, bits := true, |src|, 0, {}, {};
      OthersStart(disk, ino, i);
      if off > ino[i].size || (off + |src|) % WORD < off {
        return true, -1, 0, {}, {};
      }
      if (off + |src|) % WORD > MAXFILE * BSIZE {
        return true, -1, 0, {}, {};
      }
      ok, rounds, data, bits := WriteAll(i, off, src);
      if ok {
        WriteFinished(g, old(disk), old(ino), disk, ino, own, i, off, src);
        ghost var i1 := ino;
        if |src| > 0 {
          if off + |src| > ino[i].size {
            ino := ino[i := ino[i].(size := off + |src|)];
          }
          logged := logged + {g.InodeBlock(i)};
        }
        assert ino == i1[i := SizedTo(i1[i], off + |src|)];
      }
    }

    /** The first loop of itrunc(). */
    method FreeDirect(i: nat)
      requires Sound() && i < |ino|
      modifies `disk, `ino, `logged
      ensures OnlyMeta(g, old(disk), disk) && BitsOk(g, disk, Left(own, i, NDIRECT)) && |ino| == old(|ino|)
      ensures ino == old(ino)[i := ino[i]] && ino[i].addrs[NDIRECT] == old(ino[i].addrs[NDIRECT])
      ensures forall a :: 0 <= a < NDIRECT ==> ino[i].addrs[a] == 0
    {
      LeftNone(own, i);
      assert ino == ino[i := ino[i]];
      for k := 0 to NDIRECT
        invariant OnlyMeta(g, old(disk), disk) && BitsOk(g, disk, Left(own, i, k)) && |ino| == old(|ino|)
        invariant ino == old(ino)[i := ino[i]]
        invariant forall a :: 0 <= a < k ==> ino[i].addrs[a] == 0
        invariant forall a :: k <= a <= NDIRECT ==> ino[i].addrs[a] == old(ino[i].addrs[a])
      {
        LeftNext(g, old(disk), old(ino), own, i, k);
        if ino[i].addrs[k] != 0 {
          Bfree(ino[i].addrs[k], Left(own, i, k));
          ino := SetAddr(ino, i, k, 0);
        }
      }
    }

    /** The second loop of itrunc(). */
    method FreeEntries(i: nat, ghost d0: seq<Block>, ghost i0: seq<Inode>)
      requires NamesOk(g, d0, i0, own) && i < |i0| && OnlyMeta(g, d0, disk) && BitsOk(g, disk, Left(own, i, NDIRECT))
      requires |ino| == |i0| && ino[i].addrs[NDIRECT] == i0[i].addrs[NDIRECT] != 0
      modifies `disk, `logged
      ensures OnlyMeta(g, d0, disk) && BitsOk(g, disk, Left(own, i, MAXFILE))
    {
      NamedIsOwned(g, d0, i0, own, Ind(i));
      var a := disk[ino[i].addrs[NDIRECT]];
      for j := 0 to NINDIRECT
        invariant OnlyMeta(g, d0, disk) && BitsOk(g, disk, Left(own, i, NDIRECT + j))
      {
        FreeEntry(i, j, Word(a, j), d0, i0);
      }
    }

    /** One turn of that loop: entry j of the indirect block names block b, or none. */
    method FreeEntry(i: nat, ghost j: nat, b: nat, ghost d0: seq<Block>, ghost i0: seq<Inode>)
      requires NamesOk(g, d0, i0, own) && i < |i0| && j < NINDIRECT && b == Addr(d0, i0[i], NDIRECT + j)
      requires OnlyMeta(g, d0, disk) && BitsOk(g, disk, Left(own, i, NDIRECT + j))
      modifies `disk, `logged
      ensures OnlyMeta(g, d0, disk) && BitsOk(g, disk, Left(own, i, NDIRECT + j + 1))
    {
      LeftNext(g, d0, i0, own, i, NDIRECT + j);
      if b != 0 {
        Bfree(b, Left(own, i, NDIRECT + j));
      }
    }

    /** itrunc(): exactly the blocks of inode i become free, and no other file changes. */
    method Itrunc(i: nat)
      requires Sound() && i < |ino|
      modifies `disk, `ino, `logged, `own
      ensures Sound() && own == Without(old(own), i) && ino == old(ino)[i := Empty()] && (old(Valid()) ==> Valid())
      ensures OthersSame(old(disk), old(ino), disk, ino, i)
    {
      FreeDirect(i);
      if ino[i].addrs[NDIRECT] != 0 {
        FreeEntries(i, old(disk), old(ino));
        LeftLast(g, old(disk), old(ino), own, i);
        Bfree(ino[i].addrs[NDIRECT], Left(own, i, MAXFILE));
        ino := SetAddr(ino, i, NDIRECT, 0);
      } else {
        LeftDirect(g, old(disk), old(ino), own, i);
      }
      ino := ino[i := ino[i].(size := 0)];
      assert ino[i].addrs == Empty().addrs;
      assert ino == old(ino)[i := Empty()];
      logged := logged + {g.InodeBlock(i)};
      Truncated(g, old(disk), old(ino), own, disk, i);
      own := Without(own, i);
    }

    /** One turn of the loop in filewrite(): a transaction of its own. */
    method WriteChunk(i: nat, off: nat, piece: seq<byte>) returns (ok: bool, r: int)
      requires Sound() && i < |ino| && off < WORD && 0 < |piece| <= CHUNK
      modifies `disk, `ino, `logged, `own
      ensures r == if off > old(ino[i].size) || off + |piece| > MAXFILE * BSIZE then -1 else |piece|
      ensures ok ==> Sound() && |ino| == old(|ino|) && (old(Valid()) ==> Valid())
      ensures ok && r == -1 ==> disk == old(disk) && ino == old(ino)
      ensures ok && r >= 0 ==> Content(disk, ino[i]) == Spliced(old(Content(disk, ino[i])), off, piece)
      ensures ok ==> OthersSame(old(disk), old(ino), disk, ino, i)
      ensures ok ==> |logged| <= TxnBound(g)
    {
      logged := {};
      ghost var rounds, data, bits;
      ok, r, rounds, data, bits := Writei(i, off, piece);
      if ok && r >= 0 {
        ChunkBound(g, logged, data, bits, off, |piece|, rounds, ino[i].addrs[NDIRECT], g.InodeBlock(i));
      }
    }

    /** The same, seen from the whole write: another n1 bytes of src are in place. */
    method NextChunk(i: nat, off: nat, src: seq<byte>, done: nat, n1: nat, ghost c0: seq<byte>, ghost d0: seq<Block>,
                     ghost i0: seq<Inode>) returns (ok: bool, r: int)
      requires Sound() && i < |ino| && off + done < WORD && done + n1 <= |src| && 0 < n1 <= CHUNK
      requires WrittenTo(c0, off, src, done, Content(disk, ino[i])) && (done > 0 ==> off <= |c0|)
      requires OthersSame(d0, i0, disk, ino, i)
      modifies `disk, `ino, `logged, `own
      ensures ok ==> Sound() && |ino| == old(|ino|) && (old(Valid()) ==> Valid()) && |logged| <= TxnBound(g)
      ensures ok ==> OthersSame(d0, i0, disk, ino, i)
      ensures ok ==> r == if off > |c0| || off + done + n1 > MAXFILE * BSIZE then -1 else n1
      ensures ok ==> WrittenTo(c0, off, src, if r < 0 then done else done + n1, Content(disk, ino[i]))
    {
      ghost var c1 := Content(disk, ino[i]);
      LongEnough(c0, off, src, done, c1);
      ok, r := WriteChunk(i, off + done, src[done..done + n1]);
      if ok { SameOn(d0, i0, old(disk), old(ino), disk, ino, i); }
      if ok && r >= 0 { ChunkWritten(c0, off, src, done, n1, c1, Content(disk, ino[i])); }
    }

    /** The loop of filewrite(): `done` bytes have been written when it ends. */
    method WriteChunks(i: nat, off: nat, src: seq<byte>) returns (ok: bool, done: nat, ghost txns: seq<nat>)
      requires Sound() && i < |ino| && off < WORD && |src| < WORD
      modifies `disk, `ino, `logged, `own
      ensures ok ==> Sound() && |ino| == old(|ino|) && (old(Valid()) ==> Valid())
      ensures ok ==> WrittenTo(old(Content(disk, ino[i])), off, src, done, Content(disk, ino[i]))
      ensures ok && done > 0 ==> off <= old(ino[i].size)
      ensures ok && done < |src| ==>
                off > old(ino[i].size) || off + done + Min(CHUNK, |src| - done) > MAXFILE * BSIZE
      ensures ok ==> OthersSame(old(disk), old(ino), disk, ino, i) && AllWithin(txns, TxnBound(g))
    {
      ok, done, txns := true, 0, [];
      ghost var c0 := Content(disk, ino[i]);
      GrownNone(c0, off, src);
      OthersStart(disk, ino, i);
      while done < |src|
        invariant 0 <= done <= |src| && off + done < WORD && (done > 0 ==> off <= |c0|)
        invariant Sound() && |ino| == old(|ino|) && (old(Valid()) ==> Valid())
        invariant WrittenTo(c0, off, src, done, Content(disk, ino[i]))
        invariant OthersSame(old(disk), old(ino), disk, ino, i) && AllWithin(txns, TxnBound(g))
      {
        var n1 := Min(|src| - done, CHUNK);
        var r;
        ok, r := NextChunk(i, off, src, done, n1, c0, old(disk), old(ino));
        if !ok { return; }
        txns := txns + [|logged|];
        if r < 0 { break; }
        done := done + r;
      }
    }

    /** The FD_INODE part of filewrite(): src goes to file i at off in chunks of at most three blocks;
        `end` is the new file offset and `txns` the number of blocks each transaction logged. */
    method FileWrite(i: nat, off: nat, src: seq<byte>) returns (ok: bool, ret: int, end: nat, ghost txns: seq<nat>)
      requires Sound() && i < |ino| && off < WORD && |src| < WORD
      modifies `disk, `ino, `logged, `own
      ensures ok ==> Sound() && |ino| == old(|ino|) && (old(Valid()) ==> Valid())
      ensures ok ==> off <= end <= off + |src| && ret == if end == off + |src| then |src| else -1
      ensures ok ==> Content(disk, ino[i]) == Grown(old(Content(disk, ino[i])), off, src[..end - off])
      ensures ok && end > off ==> off <= old(ino[i].size)
      ensures ok && end < off + |src| ==>
                off > old(ino[i].size) || end + Min(CHUNK, |src| - (end - off)) > MAXFILE * BSIZE
      ensures ok ==> OthersSame(old(disk), old(ino), disk, ino, i)
      ensures ok ==> AllWithin(txns, TxnBound(g))
    {
      var done;
      ok, done, txns := WriteChunks(i, off, src);
      end := off + done;
      ret := if done == |src| then |src| else -1;
    }
  }
}
