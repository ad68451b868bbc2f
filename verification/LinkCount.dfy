/** Directories as sequences of entries, and how many entries name an inode. */
module LinkCount {

  datatype Kind = Free | Dir | File | Device

  /** inum 0 marks an unused entry.  A name is what is left of a path element after the cut to
      DIRSIZ bytes, so that namecmp() is equality. */
  datatype Dirent = Dirent(inum: nat, name: string)

  datatype Inode = Inode(kind: Kind, nlink: int, ents: seq<Dirent>)

  const ROOT: nat := 1
  const NONE := Dirent(0, "")

  /** e is an entry for inode i other than ".". */
  predicate Names(e: Dirent, i: nat) { e.inum == i && e.name != "." }

  function CountIn(ents: seq<Dirent>, i: nat): nat {
    if ents == [] then 0
    else CountIn(ents[..|ents| - 1], i) + (if Names(ents[|ents| - 1], i) then 1 else 0)
  }

  function EntsOf(x: Inode): seq<Dirent> { if x.kind == Dir then x.ents else [] }

  /** The entries of all directories that name inode i. */
  function CountAll(ino: seq<Inode>, i: nat): nat {
    if ino == [] then 0 else CountAll(ino[..|ino| - 1], i) + CountIn(EntsOf(ino[|ino| - 1]), i)
  }

  function One(b: bool): nat { if b then 1 else 0 }

  lemma {:induction false} CountInSet(ents: seq<Dirent>, k: nat, e: Dirent, i: nat)
    requires k < |ents|
    ensures CountIn(ents[k := e], i) + One(Names(ents[k], i)) == CountIn(ents, i) + One(Names(e, i))
  {
    var n := |ents| - 1;
    if k == n {
      assert ents[k := e][..n] == ents[..n];
    } else {
      assert ents[k := e][..n] == ents[..n][k := e];
      CountInSet(ents[..n], k, e, i);
    }
  }

  lemma {:induction false} CountInZero(ents: seq<Dirent>, i: nat)
    requires forall k :: 0 <= k < |ents| ==> !Names(ents[k], i)
    ensures CountIn(ents, i) == 0
  {
    if ents != [] { CountInZero(ents[..|ents| - 1], i); }
  }

  lemma CountInSome(ents: seq<Dirent>, k: nat, i: nat)
    requires k < |ents| && Names(ents[k], i)
    ensures CountIn(ents, i) > 0
  {
    CountInSet(ents, k, Dirent(i, "."), i);
  }

  lemma {:induction false} CountAllSet(ino: seq<Inode>, d: nat, x: Inode, i: nat)
    requires d < |ino|
    ensures CountAll(ino[d := x], i) + CountIn(EntsOf(ino[d]), i) == CountAll(ino, i) + CountIn(EntsOf(x), i)
  {
    var n := |ino| - 1;
    if d == n {
      assert ino[d := x][..n] == ino[..n];
    } else {
      assert ino[d := x][..n] == ino[..n][d := x];
      CountAllSet(ino[..n], d, x, i);
    }
  }

  lemma {:induction false} CountAllZero(ino: seq<Inode>, i: nat)
    requires forall d :: 0 <= d < |ino| ==> CountIn(EntsOf(ino[d]), i) == 0
    ensures CountAll(ino, i) == 0
  {
    if ino != [] { CountAllZero(ino[..|ino| - 1], i); }
  }

  lemma CountAllSome(ino: seq<Inode>, d: nat, i: nat)
    requires d < |ino|
    ensures CountAll(ino, i) >= CountIn(EntsOf(ino[d]), i)
  {
    CountAllSet(ino, d, Inode(Free, 0, []), i);
  }

  // ---- adding an entry --------------------------------------------------------------------------------

  function FirstFree(ents: seq<Dirent>): (k: nat)
    ensures k <= |ents| && (forall j :: 0 <= j < k ==> ents[j].inum != 0) && (k < |ents| ==> ents[k].inum == 0)
  {
    if ents == [] then 0
    else
      var k := FirstFree(ents[..|ents| - 1]);
      if k < |ents| - 1 || ents[|ents| - 1].inum == 0 then k else |ents|
  }

  /** The entries after dirlink() has put e in the first unused one, or at the end. */
  function Linked(ents: seq<Dirent>, e: Dirent): seq<Dirent> {
    var k := FirstFree(ents);
    if k < |ents| then ents[k := e] else ents + [e]
  }

  lemma LinkedCount(ents: seq<Dirent>, e: Dirent, i: nat)
    requires i != 0
    ensures CountIn(Linked(ents, e), i) == CountIn(ents, i) + One(Names(e, i))
  {
    var k := FirstFree(ents);
    if k < |ents| {
      CountInSet(ents, k, e, i);
    } else {
      assert (ents + [e])[..|ents|] == ents;
    }
  }
}
