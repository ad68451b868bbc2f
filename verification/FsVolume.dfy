/** The blocks of a volume as kernel/fs.c uses them: which block an inode names where, which bits
    of the free map are set, and what bytes a file holds. */
module FsVolume {
  import opened FsBytes

  const NDIRECT: nat := 12
  const MAXFILE: nat := 268                  // NDIRECT + NINDIRECT
  const IPB: nat := 16                       // inodes per block

  /** The fields of the super block that matter here; the layout is the one mkfs computes. */
  datatype Geo = Geo(size: nat, ninodes: nat, inodestart: nat, bmapstart: nat) {
    function Bitmaps(): nat { size / BPB + 1 }
    function Meta(): nat { bmapstart + Bitmaps() }
    predicate Ok() { inodestart + ninodes / IPB < bmapstart && Meta() < size < WORD }
    function BitBlock(b: nat): nat { b / BPB + bmapstart }
    function InodeBlock(i: nat): nat { i / IPB + inodestart }
  }

  type Addrs = a: seq<nat> | |a| == 13 witness [0, 0, 0, 0, 0, 0, 0, 0, 0, 0, 0, 0, 0]

  datatype Inode = Inode(addrs: Addrs, size: nat)

  function Empty(): Inode { Inode([0, 0, 0, 0, 0, 0, 0, 0, 0, 0, 0, 0, 0], 0) }

  // ---- who names a block --------------------------------------------------------------------------

  /** A place that can name a block: the bn-th data block of inode i, or its indirect block. */
  datatype Slot = Data(i: nat, bn: nat) | Ind(i: nat)

  predicate SlotOk(n: nat, x: Slot) { x.i < n && (x.Data? ==> x.bn < MAXFILE) }

  /** What bmap() would find without allocating; 0 for none. */
  function Addr(disk: seq<Block>, ip: Inode, bn: nat): nat
    requires bn < MAXFILE
  {
    if bn < NDIRECT then ip.addrs[bn]
    else if 0 < ip.addrs[NDIRECT] < |disk| then Word(disk[ip.addrs[NDIRECT]], bn - NDIRECT)
    else 0
  }

  function Name(disk: seq<Block>, ino: seq<Inode>, x: Slot): nat
    requires SlotOk(|ino|, x)
  {
    match x
    case Data(i, bn) => Addr(disk, ino[i], bn)
    case Ind(i) => ino[i].addrs[NDIRECT]
  }

  predicate OwnedAt(g: Geo, disk: seq<Block>, ino: seq<Inode>, own: map<nat, Slot>, b: nat) {
    b in own ==> g.Meta() <= b < g.size && SlotOk(|ino|, own[b]) && Name(disk, ino, own[b]) == b
  }

  predicate NamedAt(disk: seq<Block>, ino: seq<Inode>, own: map<nat, Slot>, x: Slot) {
    SlotOk(|ino|, x) && Name(disk, ino, x) != 0 ==> Name(disk, ino, x) in own && own[Name(disk, ino, x)] == x
  }

  /** `own` says of every block that some inode names where it is named; so no block is named twice. */
  ghost predicate NamesOk(g: Geo, disk: seq<Block>, ino: seq<Inode>, own: map<nat, Slot>) {
    && |disk| == g.size
    && (forall b: nat {:trigger OwnedAt(g, disk, ino, own, b)} :: OwnedAt(g, disk, ino, own, b))
    && (forall x: Slot {:trigger NamedAt(disk, ino, own, x)} :: NamedAt(disk, ino, own, x))
  }

  // ---- the free map -----------------------------------------------------------------------------------

  predicate BitOf(g: Geo, disk: seq<Block>, b: nat)
    requires g.Ok() && |disk| == g.size && b < g.size
  {
    Bit(disk[g.BitBlock(b)], b % BPB)
  }

  predicate BitAt(g: Geo, disk: seq<Block>, used: set<nat>, b: nat)
    requires g.Ok() && |disk| == g.size
  {
    b < g.size ==> (BitOf(g, disk, b) <==> b < g.Meta() || b in used)
  }

  /** The set bits are those of the metadata blocks and of the blocks in `used`. */
  ghost predicate BitsOk(g: Geo, disk: seq<Block>, used: set<nat>) {
    && g.Ok() && |disk| == g.size
    && forall b: nat {:trigger BitAt(g, disk, used, b)} :: BitAt(g, disk, used, b)
  }

  // ---- file contents -----------------------------------------------------------------------------------

  predicate MappedAt(disk: seq<Block>, ip: Inode, bn: nat) {
    bn < MAXFILE && bn * BSIZE < ip.size ==> Addr(disk, ip, bn) != 0
  }

  /** Every block below the size is mapped. */
  ghost predicate InodeOk(disk: seq<Block>, ip: Inode) {
    && ip.size <= MAXFILE * BSIZE
    && forall bn: nat {:trigger MappedAt(disk, ip, bn)} :: MappedAt(disk, ip, bn)
  }

  function ByteAt(disk: seq<Block>, ip: Inode, k: nat): byte {
    if k / BSIZE < MAXFILE && 0 < Addr(disk, ip, k / BSIZE) < |disk| then disk[Addr(disk, ip, k / BSIZE)][k % BSIZE]
    else 0
  }

  function Content(disk: seq<Block>, ip: Inode): (s: seq<byte>)
    ensures |s| == ip.size
  {
    seq(ip.size, k requires 0 <= k => ByteAt(disk, ip, k))
  }

  // ---- what a change of a block does ----------------------------------------------------------------------

  /** Writing a block that is nobody's indirect block changes no name. */
  lemma NameElsewhere(g: Geo, disk: seq<Block>, ino: seq<Inode>, own: map<nat, Slot>, b: nat, data: Block, x: Slot)
    requires NamesOk(g, disk, ino, own) && b < g.size && (b in own ==> own[b].Data?) && SlotOk(|ino|, x)
    ensures Name(disk[b := data], ino, x) == Name(disk, ino, x)
  {
    assert NamedAt(disk, ino, own, Ind(x.i));
    assert OwnedAt(g, disk, ino, own, ino[x.i].addrs[NDIRECT]);
  }

  lemma WriteKeepsNames(g: Geo, disk: seq<Block>, ino: seq<Inode>, own: map<nat, Slot>, b: nat, data: Block)
    requires NamesOk(g, disk, ino, own) && b < g.size && (b in own ==> own[b].Data?)
    ensures NamesOk(g, disk[b := data], ino, own)
  {
    var disk' := disk[b := data];
    forall c: nat ensures OwnedAt(g, disk', ino, own, c) {
      assert OwnedAt(g, disk, ino, own, c);
      if c in own { NameElsewhere(g, disk, ino, own, b, data, own[c]); }
    }
    forall x: Slot ensures NamedAt(disk', ino, own, x) {
      assert NamedAt(disk, ino, own, x);
      if SlotOk(|ino|, x) { NameElsewhere(g, disk, ino, own, b, data, x); }
    }
  }

  // ---- naming a block ------------------------------------------------------------------------------------

  /** inode i with addrs[a] set to b. */
  function SetAddr(ino: seq<Inode>, i: nat, a: nat, b: nat): seq<Inode>
    requires i < |ino| && a <= NDIRECT
  {
    ino[i := ino[i].(addrs := ino[i].addrs[a := b])]
  }

  lemma NameDirect(g: Geo, disk: seq<Block>, ino: seq<Inode>, own: map<nat, Slot>, i: nat, bn: nat, b: nat)
    requires NamesOk(g, disk, ino, own) && i < |ino| && bn < NDIRECT && ino[i].addrs[bn] == 0
    requires b !in own && 0 < g.Meta() <= b < g.size
    ensures NamesOk(g, disk, SetAddr(ino, i, bn, b), own[b := Data(i, bn)])
  {
    var ino', own' := SetAddr(ino, i, bn, b), own[b := Data(i, bn)];
    forall c: nat ensures OwnedAt(g, disk, ino', own', c) { assert OwnedAt(g, disk, ino, own, c); }
    forall x: Slot ensures NamedAt(disk, ino', own', x) { assert NamedAt(disk, ino, own, x); }
  }

  lemma NameIndirect(g: Geo, disk: seq<Block>, ino: seq<Inode>, own: map<nat, Slot>, i: nat, b: nat)
    requires NamesOk(g, disk, ino, own) && i < |ino| && ino[i].addrs[NDIRECT] == 0
    requires b !in own && 0 < g.Meta() <= b < g.size && disk[b] == Zeroes()
    ensures NamesOk(g, disk, SetAddr(ino, i, NDIRECT, b), own[b := Ind(i)])
  {
    var ino', own' := SetAddr(ino, i, NDIRECT, b), own[b := Ind(i)];
    forall x: Slot | SlotOk(|ino|, x) ensures Name(disk, ino', x) == if x == Ind(i) then b else Name(disk, ino, x) {
      if x.Data? && x.bn >= NDIRECT { ZeroWord(x.bn - NDIRECT); }
    }
    forall c: nat ensures OwnedAt(g, disk, ino', own', c) { assert OwnedAt(g, disk, ino, own, c); }
    forall x: Slot ensures NamedAt(disk, ino', own', x) { assert NamedAt(disk, ino, own, x); }
  }

  /** t is a new version of inode ip's indirect block, with entry bn set to b. */
  ghost predicate NewTable(disk: seq<Block>, ip: Inode, bn: nat, b: nat, t: Block) {
    NDIRECT <= bn < MAXFILE && 0 < ip.addrs[NDIRECT] < |disk| && IsPut(t, disk[ip.addrs[NDIRECT]], bn - NDIRECT, b)
  }

  lemma EntryAddr(disk: seq<Block>, ip: Inode, bn: nat, b: nat, t: Block, k: nat)
    requires NewTable(disk, ip, bn, b, t) && k < MAXFILE
    ensures Addr(disk[ip.addrs[NDIRECT] := t], ip, k) == if k == bn then b else Addr(disk, ip, k)
  {
  }

  lemma OtherAddr(disk: seq<Block>, x: nat, block: Block, ip: Inode, k: nat)
    requires x < |disk| && k < MAXFILE && ip.addrs[NDIRECT] != x
    ensures Addr(disk[x := block], ip, k) == Addr(disk, ip, k)
  {
  }

  lemma EntryName(g: Geo, disk: seq<Block>, ino: seq<Inode>, own: map<nat, Slot>, i: nat, bn: nat, b: nat, t: Block,
                  x: Slot)
    requires g.Ok() && NamesOk(g, disk, ino, own) && i < |ino| && NewTable(disk, ino[i], bn, b, t) && SlotOk(|ino|, x)
    ensures Name(disk[ino[i].addrs[NDIRECT] := t], ino, x) == if x == Data(i, bn) then b else Name(disk, ino, x)
  {
    assert NamedAt(disk, ino, own, Ind(i)) && NamedAt(disk, ino, own, Ind(x.i));
    if x.Data? {
      if x.i == i {
        EntryAddr(disk, ino[i], bn, b, t, x.bn);
      } else {
        OtherAddr(disk, ino[i].addrs[NDIRECT], t, ino[x.i], x.bn);
      }
    }
  }

  lemma NameEntry(g: Geo, disk: seq<Block>, ino: seq<Inode>, own: map<nat, Slot>, i: nat, bn: nat, b: nat, t: Block)
    requires g.Ok() && NamesOk(g, disk, ino, own) && i < |ino| && NewTable(disk, ino[i], bn, b, t)
    requires Addr(disk, ino[i], bn) == 0 && b !in own && 0 < g.Meta() <= b < g.size
    ensures NamesOk(g, disk[ino[i].addrs[NDIRECT] := t], ino, own[b := Data(i, bn)])
  {
    var disk', own' := disk[ino[i].addrs[NDIRECT] := t], own[b := Data(i, bn)];
    forall c: nat ensures OwnedAt(g, disk', ino, own', c) {
      assert OwnedAt(g, disk, ino, own, c);
      if c in own && SlotOk(|ino|, own[c]) { EntryName(g, disk, ino, own, i, bn, b, t, own[c]); }
      EntryName(g, disk, ino, own, i, bn, b, t, Data(i, bn));
    }
    forall x: Slot ensures NamedAt(disk', ino, own', x) {
      assert NamedAt(disk, ino, own, x);
      if SlotOk(|ino|, x) { EntryName(g, disk, ino, own, i, bn, b, t, x); }
    }
  }

  // ---- dropping an inode's blocks ---------------------------------------------------------------------------

  /** The blocks left when inode i owns nothing. */
  function Without(own: map<nat, Slot>, i: nat): map<nat, Slot> {
    map b | b in own && own[b].i != i :: own[b]
  }

  lemma DropNames(g: Geo, disk: seq<Block>, ino: seq<Inode>, own: map<nat, Slot>, i: nat)
    requires NamesOk(g, disk, ino, own) && i < |ino|
    ensures NamesOk(g, disk, ino[i := Empty()], Without(own, i))
  {
    var ino', own' := ino[i := Empty()], Without(own, i);
    forall c: nat ensures OwnedAt(g, disk, ino', own', c) { assert OwnedAt(g, disk, ino, own, c); }
    forall x: Slot ensures NamedAt(disk, ino', own', x) { assert NamedAt(disk, ino, own, x); }
  }
}
