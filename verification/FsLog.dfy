/** What the size of a filewrite() transaction means for the log: kernel/file.c chooses its chunk so that
    a transaction stays within MAXOPBLOCKS, and the log area must have room for it. */
module FsLog {
  import FsBytes
  import FsVolume
  import FsCode
  import opened LogDisk
  import opened LogMachine
  import opened LogConditions

  /** Seven blocks with the one bitmap block that mkfs makes; within MAXOPBLOCKS up to four of them. */
  lemma WithinOpBlocks(v: FsVolume.Geo)
    ensures FsCode.TxnBound(v) <= 7 <==> v.Bitmaps() <= 1
    ensures FsCode.TxnBound(v) <= MAXOPBLOCKS <==> v.Bitmaps() <= 4
  {
  }

  /** Where every operation is a chunk of filewrite() and the log area is the one mkfs makes
      (nlog == LOGSIZE), no run outgrows the log area iff there are at most three bitmap blocks. */
  lemma FileWritesFit(v: FsVolume.Geo, c: Config, s: State)
    requires c.g.Ok() && c.budget == FsCode.TxnBound(v) && v.Bitmaps() <= 4
    requires Fresh(s) && HeaderOk(c.g, s.disk) && Count(c.g, s.disk) == 0
    requires c.g.nlog == LOGSIZE && c.g.start + 2 * LOGSIZE <= c.g.size
    ensures c.Fits() <==> v.Bitmaps() <= 3
    ensures NeverOverfills(c, s) <==> v.Bitmaps() <= 3
  {
    WithinOpBlocks(v);
    SpaceIffBudget(c, s);
  }

  /** filewrite() keeps to the budget that FileWritesFit takes: no transaction passes more blocks to
      log_write() than that, and with at most three bitmap blocks each of them fits the log area. */
  method FileWriteFits(v: FsCode.Volume, c: Config, i: nat, off: nat, src: seq<FsBytes.byte>)
      returns (ok: bool, ret: int, end: nat, ghost txns: seq<nat>)
    requires v.Sound() && i < |v.ino| && off < FsBytes.WORD && |src| < FsBytes.WORD
    requires c.budget == FsCode.TxnBound(v.g) && c.g.nlog == LOGSIZE
    modifies v`disk, v`ino, v`logged, v`own
    ensures ok ==> forall k :: 0 <= k < |txns| ==> txns[k] <= c.budget
    ensures ok && v.g.Bitmaps() <= 3 ==> c.Fits() && forall k :: 0 <= k < |txns| ==> Config(c.g, txns[k]).Fits()
  {
    WithinOpBlocks(v.g);
    ok, ret, end, txns := v.FileWrite(i, off, src);
  }
}
