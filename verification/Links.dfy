/** Link counts: create(), sys_link() and sys_unlink() of kernel/sysfile.c over the directories of
    kernel/fs.c, one call after the other. */
module Links {
  import opened LinkCount

  predicate Used(ino: seq<Inode>, i: nat) { 0 < i < |ino| && ino[i].kind != Free }
  predicate IsDir(ino: seq<Inode>, i: nat) { 0 < i < |ino| && ino[i].kind == Dir && |ino[i].ents| >= 2 }

  // ---- the invariant ------------------------------------------------------------------------------

  /** The link count is the number of entries other than "." that name the inode. */
  predicate LinksAt(ino: seq<Inode>, i: nat) {
    0 < i < |ino| ==> CountAll(ino, i) == if ino[i].kind == Free then 0 else ino[i].nlink
  }

  /** A directory starts with "." and ".."; the root is its own parent. */
  predicate DirAt(ino: seq<Inode>, d: nat) {
    d < |ino| && ino[d].kind == Dir ==>
      && IsDir(ino, d) && ino[d].ents[0] == Dirent(d, ".") && ino[d].ents[1].name == ".."
      && IsDir(ino, ino[d].ents[1].inum)
      && (d == ROOT ==> ino[d].ents[1].inum == ROOT)
  }

  /** No two entries of a directory have the same name. */
  predicate UniqueAt(ino: seq<Inode>, d: nat, j: nat, k: nat) {
    d < |ino| && ino[d].kind == Dir && j < k < |ino[d].ents| && ino[d].ents[j].inum != 0 && ino[d].ents[k].inum != 0 ==>
      ino[d].ents[j].name != ino[d].ents[k].name
  }

  /** Every other entry names an inode in use; a directory it names has d for its "..". */
  predicate ChildAt(ino: seq<Inode>, d: nat, k: nat) {
    d < |ino| && ino[d].kind == Dir && 2 <= k < |ino[d].ents| && ino[d].ents[k].inum != 0 ==>
      var c := ino[d].ents[k].inum;
      Used(ino, c) && c != ROOT && (ino[c].kind == Dir ==> c != d && |ino[c].ents| >= 2 && ino[c].ents[1].inum == d)
  }

  /** A directory has one name. */
  predicate SingleAt(ino: seq<Inode>, d: nat, j: nat, k: nat) {
    d < |ino| && ino[d].kind == Dir && 2 <= j < k < |ino[d].ents| && ino[d].ents[j].inum == ino[d].ents[k].inum != 0 ==>
      ino[d].ents[j].inum < |ino| && ino[ino[d].ents[j].inum].kind != Dir
  }

  predicate Lists(ino: seq<Inode>, d: nat, x: nat) {
    d < |ino| && exists k: nat :: 2 <= k < |ino[d].ents| && ino[d].ents[k].inum == x
  }

  /** A directory other than the root is listed in its "..". */
  predicate ParentAt(ino: seq<Inode>, x: nat) {
    x < |ino| && x != ROOT && IsDir(ino, x) ==> Lists(ino, ino[x].ents[1].inum, x)
  }

  /** A directory other than the root lies deeper than its "..". */
  predicate DeeperAt(ino: seq<Inode>, depth: seq<nat>, x: nat) {
    x < |depth| == |ino| && x != ROOT && IsDir(ino, x) ==>
      ino[x].ents[1].inum < |depth| && depth[ino[x].ents[1].inum] < depth[x]
  }

  ghost predicate Deep(ino: seq<Inode>, depth: seq<nat>) {
    |depth| == |ino| && forall x: nat {:trigger DeeperAt(ino, depth, x)} :: DeeperAt(ino, depth, x)
  }

  /** The directories form a tree: no chain of ".." comes back to where it started. */
  ghost predicate Acyclic(ino: seq<Inode>) { exists depth :: Deep(ino, depth) }

  ghost predicate Tree(ino: seq<Inode>) {
    && ROOT < |ino| && ino[ROOT].kind == Dir && Acyclic(ino)
    && (forall d: nat {:trigger DirAt(ino, d)} :: DirAt(ino, d))
    && (forall d: nat, j: nat, k: nat {:trigger UniqueAt(ino, d, j, k)} :: UniqueAt(ino, d, j, k))
    && (forall d: nat, k: nat {:trigger ChildAt(ino, d, k)} :: ChildAt(ino, d, k))
    && (forall d: nat, j: nat, k: nat {:trigger SingleAt(ino, d, j, k)} :: SingleAt(ino, d, j, k))
    && (forall x: nat {:trigger ParentAt(ino, x)} :: ParentAt(ino, x))
  }

  ghost predicate Inv(ino: seq<Inode>) {
    Tree(ino) && forall i: nat {:trigger LinksAt(ino, i)} :: LinksAt(ino, i)
  }

  predicate Absent(ents: seq<Dirent>, name: string) {
    forall k :: 0 <= k < |ents| ==> ents[k].inum == 0 || ents[k].name != name
  }

  // ---- what the calls leave behind --------------------------------------------------------------------

  /** A new entry in directory d. */
  function Put(ino: seq<Inode>, d: nat, e: Dirent): seq<Inode>
    requires d < |ino|
  {
    ino[d := ino[d].(ents := Linked(ino[d].ents, e))]
  }

  function AfterLink(ino: seq<Inode>, i: nat, d: nat, name: string): seq<Inode>
    requires i < |ino| && d < |ino|
  {
    Put(ino[i := ino[i].(nlink := ino[i].nlink + 1)], d, Dirent(i, name))
  }

  function AfterCreate(ino: seq<Inode>, i: nat, d: nat, name: string, kind: Kind): seq<Inode>
    requires i < |ino| && d < |ino|
  {
    if kind == Dir then
      var a := ino[i := Inode(Dir, 1, [Dirent(i, "."), Dirent(d, "..")])];
      Put(a[d := a[d].(nlink := a[d].nlink + 1)], d, Dirent(i, name))
    else Put(ino[i := Inode(kind, 1, [])], d, Dirent(i, name))
  }

  /** The entry is cleared; the inode loses a link, and is freed if it was the last and nobody
      holds it. */
  function AfterUnlink(ino: seq<Inode>, d: nat, k: nat, held: bool): seq<Inode>
    requires d < |ino| && k < |ino[d].ents| && ino[d].ents[k].inum < |ino|
  {
    var i := ino[d].ents[k].inum;
    var a := ino[d := ino[d].(ents := ino[d].ents[k := NONE], nlink := ino[d].nlink - One(ino[i].kind == Dir))];
    if a[i].nlink == 1 && !held then a[i := Inode(Free, 0, [])] else a[i := a[i].(nlink := a[i].nlink - 1)]
  }

  // ---- counts ----------------------------------------------------------------------------------------------

  lemma PutCount(ino: seq<Inode>, d: nat, e: Dirent, j: nat)
    requires d < |ino| && ino[d].kind == Dir && j != 0
    ensures CountAll(Put(ino, d, e), j) == CountAll(ino, j) + One(Names(e, j))
  {
    CountAllSet(ino, d, Put(ino, d, e)[d], j);
    LinkedCount(ino[d].ents, e, j);
  }

  lemma LinkCounts(ino: seq<Inode>, i: nat, d: nat, name: string, j: nat)
    requires Inv(ino) && Used(ino, i) && ino[i].kind != Dir && IsDir(ino, d) && name != "."
    ensures LinksAt(AfterLink(ino, i, d, name), j)
  {
    if 0 < j < |ino| {
      assert LinksAt(ino, j);
      var a := ino[i := ino[i].(nlink := ino[i].nlink + 1)];
      CountAllSet(ino, i, a[i], j);
      PutCount(a, d, Dirent(i, name), j);
    }
  }

  lemma DotsCount(i: nat, d: nat, j: nat)
    ensures CountIn([Dirent(i, "."), Dirent(d, "..")], j) == One(j == d)
  {
    var dots := [Dirent(i, "."), Dirent(d, "..")];
    CountInZero(dots[..1], j);
  }

  lemma CreateFileCounts(ino: seq<Inode>, i: nat, d: nat, name: string, kind: Kind, j: nat)
    requires Inv(ino) && 0 < i < |ino| && ino[i].kind == Free && kind != Free && kind != Dir && IsDir(ino, d)
             && name != "."
    ensures LinksAt(AfterCreate(ino, i, d, name, kind), j)
  {
    if 0 < j < |ino| {
      assert LinksAt(ino, j);
      var a := ino[i := Inode(kind, 1, [])];
      CountAllSet(ino, i, a[i], j);
      PutCount(a, d, Dirent(i, name), j);
    }
  }

  lemma DotsAdd(ino: seq<Inode>, i: nat, d: nat, j: nat)
    requires i < |ino| && ino[i].kind == Free
    ensures CountAll(ino[i := Inode(Dir, 1, [Dirent(i, "."), Dirent(d, "..")])], j) == CountAll(ino, j) + One(j == d)
  {
    CountAllSet(ino, i, Inode(Dir, 1, [Dirent(i, "."), Dirent(d, "..")]), j);
    DotsCount(i, d, j);
  }

  lemma CreateDirCounts(ino: seq<Inode>, i: nat, d: nat, name: string, j: nat)
    requires Inv(ino) && 0 < i < |ino| && ino[i].kind == Free && IsDir(ino, d) && name != "."
    ensures LinksAt(AfterCreate(ino, i, d, name, Dir), j)
  {
    if 0 < j < |ino| {
      assert LinksAt(ino, j);
      var a := ino[i := Inode(Dir, 1, [Dirent(i, "."), Dirent(d, "..")])];
      var b := a[d := a[d].(nlink := a[d].nlink + 1)];
      var f := Put(b, d, Dirent(i, name));
      assert f == AfterCreate(ino, i, d, name, Dir);
      assert CountAll(a, j) == CountAll(ino, j) + One(j == d) by { DotsAdd(ino, i, d, j); }
      assert CountAll(b, j) == CountAll(a, j) by { CountAllSet(a, d, b[d], j); }
      assert CountAll(f, j) == CountAll(b, j) + One(j == i) by { PutCount(b, d, Dirent(i, name), j); }
      assert f[j].kind == (if j == i then Dir else ino[j].kind);
      assert f[j].nlink == (if j == i then 1 else ino[j].nlink) + One(j == d);
    }
  }

  /** A directory with no live entry after the first two is what isdirempty() accepts. */
  predicate Hollow(x: Inode) { forall k :: 2 <= k < |x.ents| ==> x.ents[k].inum == 0 }

  /** An empty directory counts once for its parent. */
  lemma HollowCount(ino: seq<Inode>, c: nat, j: nat)
    requires Tree(ino) && IsDir(ino, c) && Hollow(ino[c]) && j != 0
    ensures CountIn(ino[c].ents, j) == One(j == ino[c].ents[1].inum)
  {
    assert DirAt(ino, c);
    HollowFrom(ino[c].ents, |ino[c].ents|, j);
  }

  lemma {:induction false} HollowFrom(ents: seq<Dirent>, n: nat, j: nat)
    requires 2 <= n <= |ents| && j != 0 && ents[0].name == "." && ents[1].name == ".."
             && forall k :: 2 <= k < |ents| ==> ents[k].inum == 0
    ensures CountIn(ents[..n], j) == One(j == ents[1].inum)
    ensures ents[..|ents|] == ents
  {
    if n == 2 {
      assert ents[..2] == [Dirent(ents[0].inum, "."), Dirent(ents[1].inum, "..")];
      DotsCount(ents[0].inum, ents[1].inum, j);
    } else {
      assert ents[..n][..n - 1] == ents[..n - 1];
      HollowFrom(ents, n - 1, j);
    }
  }

  /** When an empty directory loses its name, nothing names it any more. */
  lemma LastName(ino: seq<Inode>, d: nat, k: nat)
    requires Tree(ino) && IsDir(ino, d) && 2 <= k < |ino[d].ents| && ino[d].ents[k].inum != 0
    requires var c := ino[d].ents[k].inum; c < |ino| && ino[c].kind == Dir && Hollow(ino[c])
    ensures var c := ino[d].ents[k].inum; CountAll(ino[d := ino[d].(ents := ino[d].ents[k := NONE])], c) == 0
  {
    var c := ino[d].ents[k].inum;
    var a := ino[d := ino[d].(ents := ino[d].ents[k := NONE])];
    assert ChildAt(ino, d, k);
    forall e | 0 <= e < |a| ensures CountIn(EntsOf(a[e]), c) == 0 {
      forall l | 0 <= l < |EntsOf(a[e])| ensures !Names(EntsOf(a[e])[l], c) {
        if e != d || l != k { NotNamed(ino, d, k, e, l); }
      }
      CountInZero(EntsOf(a[e]), c);
    }
    CountAllZero(a, c);
  }

  lemma NotNamed(ino: seq<Inode>, d: nat, k: nat, e: nat, l: nat)
    requires Tree(ino) && IsDir(ino, d) && 2 <= k < |ino[d].ents| && ino[d].ents[k].inum != 0
    requires var c := ino[d].ents[k].inum; c < |ino| && ino[c].kind == Dir && Hollow(ino[c])
    requires e < |ino| && ino[e].kind == Dir && l < |ino[e].ents| && (e != d || l != k)
    ensures !Names(ino[e].ents[l], ino[d].ents[k].inum)
  {
    var c := ino[d].ents[k].inum;
    assert ChildAt(ino, d, k) && DirAt(ino, e) && DirAt(ino, c) && ParentAt(ino, e);
    assert ChildAt(ino, e, l) && SingleAt(ino, d, k, l) && SingleAt(ino, d, l, k);
  }

  /** Clearing an entry. */
  function Cleared(ino: seq<Inode>, d: nat, k: nat): seq<Inode>
    requires d < |ino| && k < |ino[d].ents|
  {
    ino[d := ino[d].(ents := ino[d].ents[k := NONE])]
  }

  lemma ClearedCount(ino: seq<Inode>, d: nat, k: nat, j: nat)
    requires d < |ino| && ino[d].kind == Dir && k < |ino[d].ents| && j != 0
    ensures CountAll(Cleared(ino, d, k), j) + One(Names(ino[d].ents[k], j)) == CountAll(ino, j)
  {
    CountAllSet(ino, d, Cleared(ino, d, k)[d], j);
    CountInSet(ino[d].ents, k, NONE, j);
  }

  /** What unlink() finds: an entry after the first two, so not for ".". */
  predicate Entry(ino: seq<Inode>, d: nat, k: nat) {
    IsDir(ino, d) && 2 <= k < |ino[d].ents| && ino[d].ents[k].inum != 0
  }

  lemma EntryNames(ino: seq<Inode>, d: nat, k: nat)
    requires Tree(ino) && Entry(ino, d, k)
    ensures Names(ino[d].ents[k], ino[d].ents[k].inum) && Used(ino, ino[d].ents[k].inum) && ino[d].ents[k].name != ".."
  {
    assert DirAt(ino, d) && UniqueAt(ino, d, 0, k) && UniqueAt(ino, d, 1, k) && ChildAt(ino, d, k);
  }

  /** The panic of sys_unlink() for a link count below 1 cannot happen. */
  lemma NamedIsLinked(ino: seq<Inode>, d: nat, k: nat)
    requires Inv(ino) && Entry(ino, d, k)
    ensures Used(ino, ino[d].ents[k].inum) && ino[ino[d].ents[k].inum].nlink >= 1
  {
    EntryNames(ino, d, k);
    var i := ino[d].ents[k].inum;
    assert LinksAt(ino, i);
    CountInSome(ino[d].ents, k, i);
    CountAllSome(ino, d, i);
  }

  /** A file or device loses one name. */
  lemma UnlinkFileCounts(ino: seq<Inode>, d: nat, k: nat, held: bool, j: nat)
    requires Inv(ino) && Entry(ino, d, k) && ino[d].ents[k].inum < |ino| && ino[ino[d].ents[k].inum].kind != Dir
    ensures LinksAt(AfterUnlink(ino, d, k, held), j)
  {
    if 0 < j < |ino| {
      var i := ino[d].ents[k].inum;
      EntryNames(ino, d, k);
      assert LinksAt(ino, j);
      ClearedCount(ino, d, k, j);
      var a := Cleared(ino, d, k);
      assert a == ino[d := ino[d].(ents := ino[d].ents[k := NONE], nlink := ino[d].nlink - 0)];
      var b := AfterUnlink(ino, d, k, held);
      assert b == a[i := b[i]];
      CountAllSet(a, i, b[i], j);
    }
  }

  /** An empty directory has one link, and it goes with everything it named. */
  lemma UnlinkDirCounts(ino: seq<Inode>, d: nat, k: nat, j: nat)
    requires Inv(ino) && Entry(ino, d, k) && ino[d].ents[k].inum < |ino|
    requires var c := ino[d].ents[k].inum; ino[c].kind == Dir && Hollow(ino[c])
    ensures LinksAt(AfterUnlink(ino, d, k, false), j)
    ensures var c := ino[d].ents[k].inum;
              ino[c].nlink == 1 && c != d && AfterUnlink(ino, d, k, false)[c] == Inode(Free, 0, [])
  {
    var c := ino[d].ents[k].inum;
    EntryNames(ino, d, k);
    assert LinksAt(ino, c) && ChildAt(ino, d, k);
    ClearedCount(ino, d, k, c);
    LastName(ino, d, k);
    if 0 < j < |ino| {
      assert LinksAt(ino, j);
      ClearedCount(ino, d, k, j);
      DirGone(ino, d, k, j);
    }
  }

  lemma DirGone(ino: seq<Inode>, d: nat, k: nat, j: nat)
    requires Tree(ino) && Entry(ino, d, k) && ino[d].ents[k].inum < |ino| && j != 0
    requires var c := ino[d].ents[k].inum; ino[c].kind == Dir && Hollow(ino[c]) && ino[c].nlink == 1
    ensures CountAll(AfterUnlink(ino, d, k, false), j) + One(j == d) == CountAll(Cleared(ino, d, k), j)
  {
    var c := ino[d].ents[k].inum;
    assert ChildAt(ino, d, k);
    var a, b := Cleared(ino, d, k), AfterUnlink(ino, d, k, false);
    var a' := a[d := a[d].(nlink := a[d].nlink - 1)];
    CountAllSet(a, d, a'[d], j);
    assert b == a'[c := Inode(Free, 0, [])];
    CountAllSet(a', c, Inode(Free, 0, []), j);
    HollowCount(ino, c, j);
  }

  // ---- the tree ---------------------------------------------------------------------------------------------

  /** Where the new entry goes, and that the others stay. */
  lemma PutAt(ino: seq<Inode>, d: nat, e: Dirent, k: nat)
    requires Tree(ino) && IsDir(ino, d)
    ensures var s, ents := FirstFree(ino[d].ents), Linked(ino[d].ents, e);
            2 <= s < |ents| && (k < |ents| ==> ents[k] == if k == s then e
                else if k < |ino[d].ents| then ino[d].ents[k] else NONE)
            && (k < |ino[d].ents| ==> k < |ents|)
  {
    assert DirAt(ino, d);
  }

  /** a is ino with inode i made ready for a new name in d: a new inode, or one that is not a directory. */
  predicate Ready(ino: seq<Inode>, a: seq<Inode>, d: nat, i: nat) {
    && IsDir(ino, d) && 0 < i < |ino| == |a| && i != d && i != ROOT
    && a[d].kind == Dir && a[d].ents == ino[d].ents && a[i].kind != Free
    && (forall j: nat :: j < |ino| && j != i && j != d ==> a[j] == ino[j])
    && (if ino[i].kind == Free then a[i].kind == Dir ==> a[i].ents == [Dirent(i, "."), Dirent(d, "..")]
        else a[i].kind == ino[i].kind && a[i].kind != Dir)
  }

  /** Directories of b other than new ones are those of ino. */
  predicate OldDirAt(ino: seq<Inode>, b: seq<Inode>, x: nat) {
    x < |b| == |ino| && x != ROOT && IsDir(b, x) ==> IsDir(ino, x) && b[x].ents[1].inum == ino[x].ents[1].inum
  }

  lemma SameDepth(ino: seq<Inode>, b: seq<Inode>)
    requires Acyclic(ino) && |b| == |ino|
    requires forall x: nat {:trigger OldDirAt(ino, b, x)} :: OldDirAt(ino, b, x)
    ensures Acyclic(b)
  {
    var depth :| Deep(ino, depth);
    forall x: nat ensures DeeperAt(b, depth, x) { assert DeeperAt(ino, depth, x) && OldDirAt(ino, b, x); }
    assert Deep(b, depth);
  }

  /** A new directory lies one deeper than the one it is made in. */
  lemma PutDepth(ino: seq<Inode>, a: seq<Inode>, d: nat, i: nat, name: string)
    requires Tree(ino) && Ready(ino, a, d, i)
    ensures Acyclic(Put(a, d, Dirent(i, name)))
  {
    var b := Put(a, d, Dirent(i, name));
    PutAt(ino, d, Dirent(i, name), 1);
    var depth :| Deep(ino, depth);
    var depth' := depth[i := depth[d] + 1];
    forall x: nat ensures DeeperAt(b, depth', x) { assert DeeperAt(ino, depth, x) && DirAt(ino, x); }
    assert Deep(b, depth');
  }

  lemma PutTree(ino: seq<Inode>, a: seq<Inode>, d: nat, i: nat, name: string)
    requires Tree(ino) && Ready(ino, a, d, i) && Absent(ino[d].ents, name)
    ensures Tree(Put(a, d, Dirent(i, name)))
  {
    var b, e := Put(a, d, Dirent(i, name)), Dirent(i, name);
    PutDepth(ino, a, d, i, name);
    forall x: nat ensures DirAt(b, x) { assert DirAt(ino, x); PutAt(ino, d, e, 0); PutAt(ino, d, e, 1); }
    forall x: nat, j: nat, k: nat ensures UniqueAt(b, x, j, k) {
      assert UniqueAt(ino, x, j, k);
      PutAt(ino, d, e, j);
      PutAt(ino, d, e, k);
    }
    forall x: nat, k: nat ensures ChildAt(b, x, k) { PutChild(ino, a, d, i, name, x, k); }
    forall x: nat, j: nat, k: nat ensures SingleAt(b, x, j, k) { PutSingle(ino, a, d, i, name, x, j, k); }
    forall x: nat ensures ParentAt(b, x) { PutParent(ino, a, d, i, name, x); }
  }

  lemma PutChild(ino: seq<Inode>, a: seq<Inode>, d: nat, i: nat, name: string, x: nat, k: nat)
    requires Tree(ino) && Ready(ino, a, d, i)
    ensures ChildAt(Put(a, d, Dirent(i, name)), x, k)
  {
    PutAt(ino, d, Dirent(i, name), k);
    assert ChildAt(ino, x, k);
    if x < |ino| && k < |ino[x].ents| && ino[x].ents[k].inum < |ino| {
      PutAt(ino, d, Dirent(i, name), 1);
      assert DirAt(ino, ino[x].ents[k].inum);
    }
  }

  lemma PutSingle(ino: seq<Inode>, a: seq<Inode>, d: nat, i: nat, name: string, x: nat, j: nat, k: nat)
    requires Tree(ino) && Ready(ino, a, d, i)
    ensures SingleAt(Put(a, d, Dirent(i, name)), x, j, k)
  {
    PutAt(ino, d, Dirent(i, name), j);
    PutAt(ino, d, Dirent(i, name), k);
    assert SingleAt(ino, x, j, k) && ChildAt(ino, x, j) && ChildAt(ino, x, k);
  }

  lemma PutParent(ino: seq<Inode>, a: seq<Inode>, d: nat, i: nat, name: string, x: nat)
    requires Tree(ino) && Ready(ino, a, d, i)
    ensures ParentAt(Put(a, d, Dirent(i, name)), x)
  {
    var b, e := Put(a, d, Dirent(i, name)), Dirent(i, name);
    PutAt(ino, d, e, 1);
    var s := FirstFree(ino[d].ents);
    PutAt(ino, d, e, s);
    if x == i {
      assert b[d].ents[s].inum == i;
    } else if x < |ino| && x != ROOT && IsDir(b, x) {
      assert ParentAt(ino, x) && DirAt(ino, x);
      var p := ino[x].ents[1].inum;
      assert b[x].ents[1] == ino[x].ents[1];
      var k: nat :| 2 <= k < |ino[p].ents| && ino[p].ents[k].inum == x;
      PutAt(ino, d, e, k);
      assert DirAt(ino, p);
      assert b[p].ents[k].inum == x;
    }
  }

  /** The last name of a file is the only entry that names it. */
  lemma OnlyName(ino: seq<Inode>, d: nat, k: nat, e: nat, l: nat)
    requires Inv(ino) && Entry(ino, d, k) && Entry(ino, e, l) && (e != d || l != k)
    requires ino[d].ents[k].inum < |ino| && ino[ino[d].ents[k].inum].nlink == 1
    ensures ino[e].ents[l].inum != ino[d].ents[k].inum
  {
    var i := ino[d].ents[k].inum;
    EntryNames(ino, d, k);
    EntryNames(ino, e, l);
    assert LinksAt(ino, i);
    ClearedCount(ino, d, k, i);
    var a := Cleared(ino, d, k);
    if ino[e].ents[l].inum == i {
      CountInSome(a[e].ents, l, i);
      CountAllSome(a, e, i);
    }
  }

  /** What sys_unlink() may remove: not a directory that still lists something or that is in use. */
  predicate Removable(ino: seq<Inode>, d: nat, k: nat, held: bool) {
    && Entry(ino, d, k) && ino[d].ents[k].inum < |ino|
    && var c := ino[d].ents[k].inum; ino[c].kind == Dir ==> Hollow(ino[c]) && !held
  }

  /** An inode that is freed is named by no other entry, not even by a "..". */
  lemma FreedUnnamed(ino: seq<Inode>, d: nat, k: nat, held: bool, e: nat, l: nat)
    requires Inv(ino) && Removable(ino, d, k, held) && IsDir(ino, e) && 1 <= l < |ino[e].ents| && (e != d || l != k)
    requires ino[ino[d].ents[k].inum].kind == Dir || (ino[ino[d].ents[k].inum].nlink == 1 && !held)
    ensures ino[e].ents[l].inum != ino[d].ents[k].inum
  {
    assert DirAt(ino, e) && UniqueAt(ino, e, 0, l) && ChildAt(ino, d, k);
    if ino[ino[d].ents[k].inum].kind == Dir {
      NotNamed(ino, d, k, e, l);
    } else if l >= 2 && ino[e].ents[l].inum != 0 {
      OnlyName(ino, d, k, e, l);
    }
  }

  lemma Kept(ino: seq<Inode>, d: nat, k: nat, held: bool, x: nat)
    requires Inv(ino) && Removable(ino, d, k, held) && x < |ino|
    ensures var b, i := AfterUnlink(ino, d, k, held), ino[d].ents[k].inum;
            && i != d && |b| == |ino|
            && (x != i ==>
                  b[x].kind == ino[x].kind && b[x].ents == if x == d then ino[d].ents[k := NONE] else ino[x].ents)
            && (x == i ==> b[i] == Inode(Free, 0, []) || (b[i].kind == ino[i].kind != Dir && b[i].ents == ino[i].ents))
            && (b[i].kind == Free ==> ino[i].kind == Dir || (ino[i].nlink == 1 && !held))
  {
    EntryNames(ino, d, k);
    assert ChildAt(ino, d, k);
    if ino[ino[d].ents[k].inum].kind == Dir { UnlinkDirCounts(ino, d, k, 0); }
  }

  lemma UnlinkTree(ino: seq<Inode>, d: nat, k: nat, held: bool)
    requires Inv(ino) && Removable(ino, d, k, held)
    ensures Tree(AfterUnlink(ino, d, k, held))
  {
    var b, i := AfterUnlink(ino, d, k, held), ino[d].ents[k].inum;
    assert ChildAt(ino, d, k);
    Kept(ino, d, k, held, ROOT);
    forall x: nat ensures OldDirAt(ino, b, x) { if x < |ino| { Kept(ino, d, k, held, x); } }
    SameDepth(ino, b);
    forall x: nat ensures DirAt(b, x) { UnlinkDir(ino, d, k, held, x); }
    forall x: nat, j: nat, l: nat ensures UniqueAt(b, x, j, l) {
      assert UniqueAt(ino, x, j, l);
      if x < |ino| { Kept(ino, d, k, held, x); }
    }
    forall x: nat, l: nat ensures ChildAt(b, x, l) { UnlinkChild(ino, d, k, held, x, l); }
    forall x: nat, j: nat, l: nat ensures SingleAt(b, x, j, l) { UnlinkSingle(ino, d, k, held, x, j, l); }
    forall x: nat ensures ParentAt(b, x) { UnlinkParent(ino, d, k, held, x); }
  }

  lemma UnlinkDir(ino: seq<Inode>, d: nat, k: nat, held: bool, x: nat)
    requires Inv(ino) && Removable(ino, d, k, held)
    ensures DirAt(AfterUnlink(ino, d, k, held), x)
  {
    if x < |ino| {
      Kept(ino, d, k, held, x);
      assert DirAt(ino, x);
      if ino[x].kind == Dir {
        var p := ino[x].ents[1].inum;
        Kept(ino, d, k, held, p);
        Kept(ino, d, k, held, ino[d].ents[k].inum);
        if AfterUnlink(ino, d, k, held)[ino[d].ents[k].inum].kind == Free { FreedUnnamed(ino, d, k, held, x, 1); }
      }
    }
  }

  lemma UnlinkChild(ino: seq<Inode>, d: nat, k: nat, held: bool, x: nat, l: nat)
    requires Inv(ino) && Removable(ino, d, k, held)
    ensures ChildAt(AfterUnlink(ino, d, k, held), x, l)
  {
    var b, i := AfterUnlink(ino, d, k, held), ino[d].ents[k].inum;
    if x < |ino| && b[x].kind == Dir && 2 <= l < |b[x].ents| && b[x].ents[l].inum != 0 {
      Kept(ino, d, k, held, x);
      Kept(ino, d, k, held, i);
      assert ChildAt(ino, x, l) && DirAt(ino, x);
      var c := ino[x].ents[l].inum;
      Kept(ino, d, k, held, c);
      assert DirAt(ino, c);
      if b[i].kind == Free { FreedUnnamed(ino, d, k, held, x, l); }
    }
  }

  lemma UnlinkSingle(ino: seq<Inode>, d: nat, k: nat, held: bool, x: nat, j: nat, l: nat)
    requires Inv(ino) && Removable(ino, d, k, held)
    ensures SingleAt(AfterUnlink(ino, d, k, held), x, j, l)
  {
    if x < |ino| {
      Kept(ino, d, k, held, x);
      assert SingleAt(ino, x, j, l);
      if j < |ino[x].ents| && ino[x].ents[j].inum < |ino| { Kept(ino, d, k, held, ino[x].ents[j].inum); }
    }
  }

  lemma UnlinkParent(ino: seq<Inode>, d: nat, k: nat, held: bool, x: nat)
    requires Inv(ino) && Removable(ino, d, k, held)
    ensures ParentAt(AfterUnlink(ino, d, k, held), x)
  {
    var b, i := AfterUnlink(ino, d, k, held), ino[d].ents[k].inum;
    if x < |ino| && x != ROOT && IsDir(b, x) {
      Kept(ino, d, k, held, x);
      Kept(ino, d, k, held, i);
      assert DirAt(ino, x) && ParentAt(ino, x);
      var p := ino[x].ents[1].inum;
      Kept(ino, d, k, held, p);
      if b[i].kind == Free { FreedUnnamed(ino, d, k, held, x, 1); }
      assert DirAt(ino, p);
      var m: nat :| 2 <= m < |ino[p].ents| && ino[p].ents[m].inum == x;
      assert b[p].ents[m].inum == x;
    }
  }

  // ---- the calls keep the invariant ----------------------------------------------------------------------------

  lemma LinkKeeps(ino: seq<Inode>, i: nat, d: nat, name: string)
    requires Inv(ino) && Used(ino, i) && ino[i].kind != Dir && IsDir(ino, d) && Absent(ino[d].ents, name)
    ensures Inv(AfterLink(ino, i, d, name))
  {
    assert DirAt(ino, d) && DirAt(ino, ROOT);
    PutTree(ino, ino[i := ino[i].(nlink := ino[i].nlink + 1)], d, i, name);
    var b := AfterLink(ino, i, d, name);
    forall j: nat ensures LinksAt(b, j) { LinkCounts(ino, i, d, name, j); }
  }

  lemma CreateKeeps(ino: seq<Inode>, i: nat, d: nat, name: string, kind: Kind)
    requires Inv(ino) && 0 < i < |ino| && ino[i].kind == Free && kind != Free && IsDir(ino, d)
             && Absent(ino[d].ents, name)
    ensures Inv(AfterCreate(ino, i, d, name, kind))
  {
    assert DirAt(ino, d);
    var b := AfterCreate(ino, i, d, name, kind);
    if kind == Dir {
      var a := ino[i := Inode(Dir, 1, [Dirent(i, "."), Dirent(d, "..")])];
      PutTree(ino, a[d := a[d].(nlink := a[d].nlink + 1)], d, i, name);
      forall j: nat ensures LinksAt(b, j) { CreateDirCounts(ino, i, d, name, j); }
    } else {
      PutTree(ino, ino[i := Inode(kind, 1, [])], d, i, name);
      forall j: nat ensures LinksAt(b, j) { CreateFileCounts(ino, i, d, name, kind, j); }
    }
  }

  lemma UnlinkKeeps(ino: seq<Inode>, d: nat, k: nat, held: bool)
    requires Inv(ino) && Removable(ino, d, k, held)
    ensures Inv(AfterUnlink(ino, d, k, held))
  {
    UnlinkTree(ino, d, k, held);
    var b := AfterUnlink(ino, d, k, held);
    forall j: nat ensures LinksAt(b, j) {
      if ino[ino[d].ents[k].inum].kind == Dir {
        UnlinkDirCounts(ino, d, k, j);
      } else {
        UnlinkFileCounts(ino, d, k, held, j);
      }
    }
  }

  /** If somebody still holds the directory that is removed, its ".." stays while its parent's count
      has gone down: the counts stay right exactly when no such directory is removed. */
  lemma UnlinkKeepsIffNotHeld(ino: seq<Inode>, d: nat, k: nat, held: bool)
    requires Inv(ino) && Entry(ino, d, k) && ino[d].ents[k].inum < |ino|
    requires var c := ino[d].ents[k].inum; ino[c].kind == Dir ==> Hollow(ino[c])
    ensures Inv(AfterUnlink(ino, d, k, held)) <==> !(ino[ino[d].ents[k].inum].kind == Dir && held)
  {
    var c := ino[d].ents[k].inum;
    if ino[c].kind == Dir && held {
      var a, b := Cleared(ino, d, k), AfterUnlink(ino, d, k, held);
      assert ChildAt(ino, d, k) && LinksAt(ino, d);
      var a' := a[d := a[d].(nlink := a[d].nlink - 1)];
      assert CountAll(a, d) == CountAll(ino, d) by { ClearedCount(ino, d, k, d); }
      assert CountAll(a', d) == CountAll(a, d) by { CountAllSet(a, d, a'[d], d); }
      assert CountAll(b, d) == CountAll(a', d) by {
        assert b == a'[c := b[c]];
        CountAllSet(a', c, b[c], d);
      }
      assert b[d].nlink == ino[d].nlink - 1 && b[d].kind == Dir;
      assert !LinksAt(b, d);
    } else {
      UnlinkKeeps(ino, d, k, held);
    }
  }

  /** A legal state in which that happens: mkdir in an empty root, then rmdir while it is open. */
  lemma HeldDirectory(n: nat, name: string)
    requires 4 <= n && name != "." && name != ".."
    ensures var ino := AfterCreate(Formatted(n, []), 2, ROOT, name, Dir);
            Inv(ino) && Entry(ino, ROOT, 2) && !Inv(AfterUnlink(ino, ROOT, 2, true))
  {
    var root := Formatted(n, []);
    FormattedOkIffNamesDiffer(n, []);
    assert root[ROOT].ents[0].name == "." && root[ROOT].ents[1].name == "..";
    forall k | 2 <= k < |root[ROOT].ents| ensures root[ROOT].ents[k] == NONE { RootAt([], k); }
    CreateKeeps(root, 2, ROOT, name, Dir);
    var ino := AfterCreate(root, 2, ROOT, name, Dir);
    PutAt(root, ROOT, Dirent(2, name), 2);
    assert FirstFree(root[ROOT].ents) == 2;
    UnlinkKeepsIffNotHeld(ino, ROOT, 2, true);
  }

  /** A removed directory that somebody still holds: all is well but for its "..". */
  ghost predicate Limbo(ino: seq<Inode>, i: nat) {
    i < |ino| && ino[i].kind == Dir && ino[i].nlink == 0 && Inv(ino[i := Inode(Free, 0, [])])
  }

  /** The count is wrong only until the last holder lets go of it. */
  lemma RemovedIsLimbo(ino: seq<Inode>, d: nat, k: nat)
    requires Inv(ino) && Removable(ino, d, k, false) && ino[ino[d].ents[k].inum].kind == Dir
    ensures Limbo(AfterUnlink(ino, d, k, true), ino[d].ents[k].inum)
  {
    var c := ino[d].ents[k].inum;
    UnlinkDirCounts(ino, d, k, c);
    UnlinkKeeps(ino, d, k, false);
    assert AfterUnlink(ino, d, k, true)[c := Inode(Free, 0, [])] == AfterUnlink(ino, d, k, false);
  }

  /** A directory that is in order has a link. */
  lemma DirLinked(ino: seq<Inode>, x: nat)
    requires Inv(ino) && IsDir(ino, x)
    ensures ino[x].nlink > 0
  {
    assert DirAt(ino, x) && ParentAt(ino, x) && LinksAt(ino, x);
    var p := ino[x].ents[1].inum;
    if x == ROOT {
      CountInSome(ino[p].ents, 1, x);
      CountAllSome(ino, p, x);
    } else {
      var k: nat :| 2 <= k < |ino[p].ents| && ino[p].ents[k].inum == x;
      assert DirAt(ino, p);
      NamedIsLinked(ino, p, k);
    }
  }

  /** The last reference to an inode without links goes: iput() frees it. */
  lemma DropKeeps(ino: seq<Inode>, i: nat)
    requires Inv(ino) && Used(ino, i) && ino[i].kind != Dir && ino[i].nlink == 0
    ensures Inv(ino[i := Inode(Free, 0, [])])
  {
    var b := ino[i := Inode(Free, 0, [])];
    forall j: nat ensures LinksAt(b, j) { assert LinksAt(ino, j); CountAllSet(ino, i, b[i], if j == 0 then 1 else j); }
    forall x: nat ensures OldDirAt(ino, b, x) {}
    SameDepth(ino, b);
    forall x: nat ensures DirAt(b, x) { assert DirAt(ino, x); }
    forall x: nat, j: nat, l: nat ensures UniqueAt(b, x, j, l) { assert UniqueAt(ino, x, j, l); }
    forall x: nat, l: nat ensures ChildAt(b, x, l) {
      assert ChildAt(ino, x, l) && DirAt(ino, x);
      if Entry(ino, x, l) { NamedIsLinked(ino, x, l); }
    }
    forall x: nat, j: nat, l: nat ensures SingleAt(b, x, j, l) { assert SingleAt(ino, x, j, l); }
    forall x: nat ensures ParentAt(b, x) {
      assert ParentAt(ino, x) && DirAt(ino, x);
      if x < |b| && x != ROOT && IsDir(b, x) {
        var p := ino[x].ents[1].inum;
        var m: nat :| 2 <= m < |ino[p].ents| && ino[p].ents[m].inum == x;
        assert b[p].ents[m].inum == x;
      }
    }
  }

  // ---- what mkfs makes -----------------------------------------------------------------------------------

  /** The entries of the files, which get inodes 2, 3, ... */
  function Entries(names: seq<string>): (r: seq<Dirent>)
    ensures |r| == |names| && forall k :: 0 <= k < |names| ==> r[k] == Dirent(k + 2, names[k])
  {
    seq(|names|, k requires 0 <= k < |names| => Dirent(k + 2, names[k]))
  }

  /** The root directory of mkfs: its size is rounded up, so free entries follow. */
  function RootEnts(names: seq<string>): seq<Dirent> {
    [Dirent(ROOT, "."), Dirent(ROOT, "..")] + Entries(names) + seq(64 - (|names| + 2) % 64, _ => NONE)
  }

  /** The inodes mkfs makes for files of these names, each cut to DIRSIZ characters. */
  function Formatted(n: nat, names: seq<string>): seq<Inode>
    requires |names| + 2 <= n
  {
    seq(n, i => if i == ROOT then Inode(Dir, 1, RootEnts(names))
                else if 2 <= i < |names| + 2 then Inode(File, 1, []) else Inode(Free, 0, []))
  }

  predicate DifferAt(names: seq<string>, j: nat, k: nat) {
    k < |names| ==> names[k] != "." && names[k] != ".." && (j < k ==> names[j] != names[k])
  }

  /** No two names are the same, and none is "." or "..". */
  ghost predicate Differ(names: seq<string>) {
    forall j: nat, k: nat {:trigger DifferAt(names, j, k)} :: DifferAt(names, j, k)
  }

  lemma {:induction false} CountInAppend(a: seq<Dirent>, b: seq<Dirent>, i: nat)
    ensures CountIn(a + b, i) == CountIn(a, i) + CountIn(b, i)
    decreases |b|
  {
    if b == [] {
      assert a + b == a;
    } else {
      var n := |b| - 1;
      assert (a + b)[..|a + b| - 1] == a + b[..n];
      CountInAppend(a, b[..n], i);
    }
  }

  lemma {:induction false} EntriesCount(names: seq<string>, n: nat, i: nat)
    requires Differ(names) && n <= |names|
    ensures CountIn(Entries(names)[..n], i) == One(2 <= i < n + 2)
  {
    var ents := Entries(names);
    if n > 0 {
      assert ents[..n][..n - 1] == ents[..n - 1] && DifferAt(names, 0, n - 1);
      EntriesCount(names, n - 1, i);
    }
  }

  lemma RootCount(names: seq<string>, i: nat)
    requires Differ(names) && 0 < i
    ensures CountIn(RootEnts(names), i) == One(1 <= i < |names| + 2)
  {
    var dots, ents, pad := [Dirent(ROOT, "."), Dirent(ROOT, "..")], Entries(names),
        seq(64 - (|names| + 2) % 64, _ => NONE);
    CountInAppend(dots + ents, pad, i);
    CountInAppend(dots, ents, i);
    DotsCount(ROOT, ROOT, i);
    EntriesCount(names, |names|, i);
    assert ents[..|names|] == ents;
    CountInZero(pad, i);
  }

  lemma FormattedLinks(n: nat, names: seq<string>, i: nat)
    requires |names| + 2 <= n && Differ(names)
    ensures LinksAt(Formatted(n, names), i)
  {
    var ino := Formatted(n, names);
    if 0 < i < n {
      var none := ino[ROOT := Inode(Free, 0, [])];
      CountAllZero(none, i);
      CountAllSet(none, ROOT, ino[ROOT], i);
      assert none[ROOT := ino[ROOT]] == ino;
      RootCount(names, i);
    }
  }

  lemma RootAt(names: seq<string>, k: nat)
    requires k < |RootEnts(names)|
    ensures RootEnts(names)[k] == if k == 0 then Dirent(ROOT, ".") else if k == 1 then Dirent(ROOT, "..")
                                  else if k < |names| + 2 then Dirent(k, names[k - 2]) else NONE
  {
  }

  lemma FormattedUnique(n: nat, names: seq<string>, d: nat, j: nat, k: nat)
    requires |names| + 2 <= n && Differ(names)
    ensures UniqueAt(Formatted(n, names), d, j, k)
  {
    if d == ROOT && j < k < |RootEnts(names)| {
      RootAt(names, j);
      RootAt(names, k);
      if 2 <= k < |names| + 2 { assert DifferAt(names, if j >= 2 then j - 2 else 0, k - 2); }
    }
  }

  /** Nothing in mkfs compares names: the file system it makes is in order iff the names, cut to
      DIRSIZ characters, differ from each other and from "." and "..". */
  lemma FormattedOkIffNamesDiffer(n: nat, names: seq<string>)
    requires |names| + 2 <= n
    ensures Inv(Formatted(n, names)) <==> Differ(names)
  {
    var ino := Formatted(n, names);
    if Differ(names) {
      forall i: nat ensures LinksAt(ino, i) { FormattedLinks(n, names, i); }
      var flat := seq(n, _ => 0);
      forall x: nat ensures DeeperAt(ino, flat, x) {}
      assert Deep(ino, flat);
      forall x: nat ensures DirAt(ino, x) {}
      forall x: nat, j: nat, k: nat ensures UniqueAt(ino, x, j, k) { FormattedUnique(n, names, x, j, k); }
      forall x: nat, k: nat ensures ChildAt(ino, x, k) { if x == ROOT && k < |RootEnts(names)| { RootAt(names, k); } }
      forall x: nat, j: nat, k: nat ensures SingleAt(ino, x, j, k) {
        if x == ROOT && j < k < |RootEnts(names)| {
          RootAt(names, j);
          RootAt(names, k);
        }
      }
      forall x: nat ensures ParentAt(ino, x) {}
    } else {
      var j: nat, k: nat :| !DifferAt(names, j, k);
      SameNames(ino, names, j, k);
    }
  }

  lemma SameNames(ino: seq<Inode>, names: seq<string>, j: nat, k: nat)
    requires ROOT < |ino| && ino[ROOT] == Inode(Dir, 1, RootEnts(names)) && !DifferAt(names, j, k)
    ensures !Tree(ino)
  {
    RootAt(names, k + 2);
    if names[k] == "." {
      assert !UniqueAt(ino, ROOT, 0, k + 2);
    } else if names[k] == ".." {
      assert !UniqueAt(ino, ROOT, 1, k + 2);
    } else {
      RootAt(names, j + 2);
      assert !UniqueAt(ino, ROOT, j + 2, k + 2);
    }
  }

  /** Two names that agree in their first DIRSIZ characters are enough. */
  lemma TwinNames(n: nat, name: string)
    requires 4 <= n
    ensures !Inv(Formatted(n, [name, name]))
  {
    FormattedOkIffNamesDiffer(n, [name, name]);
    assert !DifferAt([name, name], 0, 1);
  }
}
