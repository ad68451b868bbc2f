/** Path lookup of kernel/fs.c and the name calls of kernel/sysfile.c. */
module LinkCode {
  import opened LinkCount
  import opened Links

  const DIRSIZ: nat := 14

  // ---- paths ---------------------------------------------------------------------------------------

  function Cut(s: string): string { if |s| >= DIRSIZ then s[..DIRSIZ] else s }

  function Cuts(names: seq<string>): seq<string> { seq(|names|, k requires 0 <= k < |names| => Cut(names[k])) }

  /** How many characters of path there are before the first '/'. */
  function ElemLen(path: string): (n: nat)
    ensures n <= |path| && '/' !in path[..n] && (n < |path| ==> path[n] == '/')
  {
    if path == "" || path[0] == '/' then 0 else 1 + ElemLen(path[1..])
  }

  /** The elements of a path, each cut to DIRSIZ characters. */
  function Elements(path: string): seq<string>
    decreases |path|
  {
    if path == "" then []
    else if path[0] == '/' then Elements(path[1..])
    else [Cut(path[..ElemLen(path)])] + Elements(path[ElemLen(path)..])
  }

  method SkipSlashes(path: string, from: nat) returns (p: nat)
    requires from <= |path|
    ensures from <= p <= |path| && Elements(path[p..]) == Elements(path[from..]) && (p < |path| ==> path[p] != '/')
  {
    p := from;
    while p < |path| && path[p] == '/'
      invariant from <= p <= |path| && Elements(path[p..]) == Elements(path[from..])
    {
      assert path[p..][1..] == path[p + 1..];
      p := p + 1;
    }
  }

  method SkipName(path: string, s: nat) returns (p: nat)
    requires s <= |path|
    ensures s <= p <= |path| && ElemLen(path[s..]) == p - s
  {
    p := s;
    while p < |path| && path[p] != '/'
      invariant s <= p <= |path| && ElemLen(path[s..]) == p - s + ElemLen(path[p..])
    {
      assert path[p..][1..] == path[p + 1..];
      p := p + 1;
    }
  }

  /** A name and what follows it. */
  lemma FirstElement(path: string, s: nat, p: nat)
    requires s <= p <= |path| && s < |path| && path[s] != '/' && ElemLen(path[s..]) == p - s
    ensures s < p && Elements(path[s..]) == [Cut(path[s..p])] + Elements(path[p..])
  {
    assert path[s..][..p - s] == path[s..p] && path[s..][p - s..] == path[p..];
  }

  /** skipelem(): the first element of the path, and the rest without leading slashes. */
  method SkipElem(path: string) returns (ok: bool, name: string, rest: string)
    ensures ok <==> Elements(path) != []
    ensures ok ==>
              Elements(path) == [name] + Elements(rest) && |rest| < |path| && (rest == "" <==> Elements(rest) == [])
  {
    assert path[0..] == path;
    var s := SkipSlashes(path, 0);
    if s == |path| { return false, "", ""; }
    var p := SkipName(path, s);
    FirstElement(path, s, p);
    var q := SkipSlashes(path, p);
    return true, Cut(path[s..p]), path[q..];
  }

  /** The inode of the first live entry with that name, 0 for none. */
  function Find(ents: seq<Dirent>, name: string): (i: nat)
    ensures i == 0 <==> Absent(ents, name)
  {
    if ents == [] then 0
    else if ents[0].inum != 0 && ents[0].name == name then ents[0].inum
    else
      assert ents == [ents[0]] + ents[1..];
      Find(ents[1..], name)
  }

  /** Where a sequence of names leads from inode i; 0 for nowhere. */
  function Resolve(ino: seq<Inode>, i: nat, names: seq<string>): nat
    decreases |names|
  {
    if names == [] then i
    else if i >= |ino| || ino[i].kind != Dir || Find(ino[i].ents, names[0]) == 0 then 0
    else Resolve(ino, Find(ino[i].ents, names[0]), names[1..])
  }

  lemma {:induction false} FindAt(ents: seq<Dirent>, name: string, k: nat)
    requires k < |ents| && ents[k].inum != 0 && ents[k].name == name
             && forall j :: 0 <= j < k ==> ents[j].inum == 0 || ents[j].name != name
    ensures Find(ents, name) == ents[k].inum
  {
    if k > 0 { FindAt(ents[1..], name, k - 1); }
  }

  /** What a name in a directory leads to is in use. */
  lemma FoundUsed(ino: seq<Inode>, d: nat, name: string)
    requires Tree(ino) && IsDir(ino, d) && Find(ino[d].ents, name) != 0
    ensures Used(ino, Find(ino[d].ents, name))
  {
    var k := Where(ino[d].ents, name);
    assert DirAt(ino, d) && ChildAt(ino, d, k);
  }

  /** The index of that entry. */
  function Where(ents: seq<Dirent>, name: string): (k: nat)
    requires Find(ents, name) != 0
    ensures k < |ents| && ents[k].inum == Find(ents, name) && ents[k].name == name
            && forall j :: 0 <= j < k ==> ents[j].inum == 0 || ents[j].name != name
  {
    if ents[0].inum != 0 && ents[0].name == name then 0 else 1 + Where(ents[1..], name)
  }

  // ---- what paths reach --------------------------------------------------------------------------------

  /** A path with one more element. */
  lemma {:induction false} ResolveOn(ino: seq<Inode>, i: nat, names: seq<string>, name: string)
    requires var p := Resolve(ino, i, names); p < |ino| && ino[p].kind == Dir && Find(ino[p].ents, name) != 0
    requires ino[0].kind != Dir
    ensures Resolve(ino, i, names + [name]) == Find(ino[Resolve(ino, i, names)].ents, name)
    decreases |names|
  {
    if names == [] {
      assert (names + [name])[1..] == [];
    } else {
      assert (names + [name])[1..] == names[1..] + [name];
      ResolveOn(ino, Find(ino[i].ents, names[0]), names[1..], name);
    }
  }

  /** An entry is found by its name: no two have the same. */
  lemma EntryFound(ino: seq<Inode>, d: nat, k: nat)
    requires Tree(ino) && IsDir(ino, d) && k < |ino[d].ents| && ino[d].ents[k].inum != 0
    ensures Find(ino[d].ents, ino[d].ents[k].name) == ino[d].ents[k].inum
  {
    forall j | 0 <= j < k ensures ino[d].ents[j].inum == 0 || ino[d].ents[j].name != ino[d].ents[k].name {
      assert UniqueAt(ino, d, j, k);
    }
    FindAt(ino[d].ents, ino[d].ents[k].name, k);
  }

  /** The way down to a directory. */
  lemma {:induction false} DirReached(ino: seq<Inode>, depth: seq<nat>, x: nat) returns (names: seq<string>)
    requires Tree(ino) && ino[0].kind == Free && Deep(ino, depth) && IsDir(ino, x)
    ensures Resolve(ino, ROOT, names) == x
    decreases depth[x]
  {
    names := [];
    if x != ROOT {
      assert DirAt(ino, x) && ParentAt(ino, x) && DeeperAt(ino, depth, x);
      var p := ino[x].ents[1].inum;
      var k: nat :| 2 <= k < |ino[p].ents| && ino[p].ents[k].inum == x;
      var up := DirReached(ino, depth, p);
      EntryFound(ino, p, k);
      ResolveOn(ino, ROOT, up, ino[p].ents[k].name);
      names := up + [ino[p].ents[k].name];
    }
  }

  /** What has a name has a path. */
  lemma NamedIsReached(ino: seq<Inode>, i: nat) returns (names: seq<string>)
    requires Inv(ino) && ino[0].kind == Free && Used(ino, i) && ino[i].nlink > 0
    ensures Resolve(ino, ROOT, names) == i
  {
    var depth :| Deep(ino, depth);
    if ino[i].kind == Dir {
      assert DirAt(ino, i);
      names := DirReached(ino, depth, i);
    } else {
      var d, k := SomeName(ino, i);
      assert DirAt(ino, d);
      EntryFound(ino, d, k);
      var up := DirReached(ino, depth, d);
      ResolveOn(ino, ROOT, up, ino[d].ents[k].name);
      names := up + [ino[d].ents[k].name];
    }
  }

  lemma SomeName(ino: seq<Inode>, i: nat) returns (d: nat, k: nat)
    requires Inv(ino) && Used(ino, i) && ino[i].nlink > 0
    ensures d < |ino| && ino[d].kind == Dir && k < |ino[d].ents| && Names(ino[d].ents[k], i)
  {
    assert LinksAt(ino, i);
    if forall e | 0 <= e < |ino| :: CountIn(EntsOf(ino[e]), i) == 0 { CountAllZero(ino, i); }
    d :| d < |ino| && CountIn(EntsOf(ino[d]), i) != 0;
    if forall l | 0 <= l < |EntsOf(ino[d])| :: !Names(EntsOf(ino[d])[l], i) { CountInZero(EntsOf(ino[d]), i); }
    k :| k < |EntsOf(ino[d])| && Names(EntsOf(ino[d])[k], i);
  }

  /** What a path leads to has a link. */
  lemma {:induction false} ReachedIsLinked(ino: seq<Inode>, i: nat, names: seq<string>)
    requires Inv(ino) && ino[0].kind == Free && Used(ino, i) && ino[i].nlink > 0
    ensures Resolve(ino, i, names) != 0 ==> Used(ino, Resolve(ino, i, names)) && ino[Resolve(ino, i, names)].nlink > 0
    decreases |names|
  {
    if names != [] && ino[i].kind == Dir && Find(ino[i].ents, names[0]) != 0 {
      var k := Where(ino[i].ents, names[0]);
      assert DirAt(ino, i);
      if k >= 2 {
        NamedIsLinked(ino, i, k);
      } else {
        DirLinked(ino, ino[i].ents[1].inum);
      }
      ReachedIsLinked(ino, ino[i].ents[k].inum, names[1..]);
    }
  }

  /** Whatever the calls before did, exactly the inodes with a link are at the end of a path from the root. */
  lemma ReachedIffLinked(ino: seq<Inode>, i: nat)
    requires Inv(ino) && ino[0].kind == Free && Used(ino, i)
    ensures (exists names :: Resolve(ino, ROOT, names) == i) <==> ino[i].nlink > 0
  {
    if ino[i].nlink > 0 {
      var names := NamedIsReached(ino, i);
    } else {
      assert DirAt(ino, ROOT);
      DirLinked(ino, ROOT);
      forall names ensures Resolve(ino, ROOT, names) != i { ReachedIsLinked(ino, ROOT, names); }
    }
  }

  /** Resolution does not look at link counts. */
  lemma {:induction false} ResolveSame(ino: seq<Inode>, a: seq<Inode>, i: nat, names: seq<string>)
    requires |a| == |ino| && forall j: nat :: j < |ino| ==> a[j].kind == ino[j].kind && a[j].ents == ino[j].ents
    ensures Resolve(a, i, names) == Resolve(ino, i, names)
    decreases |names|
  {
    if names != [] && i < |ino| { ResolveSame(ino, a, Find(ino[i].ents, names[0]), names[1..]); }
  }

  /** The directory a path's last element is to be looked up in, 0 for none; what nameiparent() gives. */
  function ParentDir(ino: seq<Inode>, start: nat, names: seq<string>): nat
  {
    if names == [] then 0
    else
      var d := Resolve(ino, start, names[..|names| - 1]);
      if d < |ino| && ino[d].kind == Dir then d else 0
  }

  lemma {:induction false} ResolveSplit(ino: seq<Inode>, i: nat, names: seq<string>)
    requires |names| >= 2
    ensures i < |ino| && ino[i].kind == Dir && Find(ino[i].ents, names[0]) != 0 ==>
              ParentDir(ino, i, names) == ParentDir(ino, Find(ino[i].ents, names[0]), names[1..])
    ensures var found := i < |ino| && ino[i].kind == Dir && Find(ino[i].ents, names[0]) != 0;
            !found && 0 < |ino| && ino[0].kind != Dir ==> ParentDir(ino, i, names) == 0
  {
    var front := names[..|names| - 1];
    assert front[1..] == names[1..][..|names| - 2];
  }

  function Start(path: string, cwd: nat): nat { if path != "" && path[0] == '/' then ROOT else cwd }

  /** The shape of the tree does not depend on link counts. */
  lemma Raised(ino: seq<Inode>, i: nat)
    requires Tree(ino) && i < |ino|
    ensures Tree(ino[i := ino[i].(nlink := ino[i].nlink + 1)])
  {
    var a := ino[i := ino[i].(nlink := ino[i].nlink + 1)];
    forall x: nat ensures OldDirAt(ino, a, x) {}
    SameDepth(ino, a);
    forall x: nat ensures DirAt(a, x) { assert DirAt(ino, x); }
    forall x: nat, j: nat, l: nat ensures UniqueAt(a, x, j, l) { assert UniqueAt(ino, x, j, l); }
    forall x: nat, l: nat ensures ChildAt(a, x, l) { assert ChildAt(ino, x, l); }
    forall x: nat, j: nat, l: nat ensures SingleAt(a, x, j, l) { assert SingleAt(ino, x, j, l); }
    forall x: nat ensures ParentAt(a, x) {
      assert ParentAt(ino, x) && DirAt(ino, x);
      if x < |a| && x != ROOT && IsDir(a, x) {
        var p := ino[x].ents[1].inum;
        var m: nat :| 2 <= m < |ino[p].ents| && ino[p].ents[m].inum == x;
        assert a[p].ents[m].inum == x;
      }
    }
  }

  /** The two dirlink() calls in a new directory. */
  lemma DotsPut(ino: seq<Inode>, i: nat, d: nat)
    requires i < |ino| && i != 0 && ino[i].ents == []
    ensures Put(Put(ino, i, Dirent(i, ".")), i, Dirent(d, ".."))
            == ino[i := ino[i].(ents := [Dirent(i, "."), Dirent(d, "..")])]
  {
    var one := [Dirent(i, ".")];
    assert FirstFree([]) == 0 && Linked([], Dirent(i, ".")) == one;
    assert one[..0] == [];
    assert FirstFree(one) == 1 && Linked(one, Dirent(d, "..")) == [Dirent(i, "."), Dirent(d, "..")];
  }

  /** What create() has made by the time it adds the name. */
  lemma CreateShape(ino: seq<Inode>, a: seq<Inode>, i: nat, d: nat, kind: Kind)
    requires i < |ino| && d < |ino| && i != d
    requires var b := ino[i := Inode(kind, 0, [])];
             var c := b[i := b[i].(nlink := 1)];
             var dots := [Dirent(i, "."), Dirent(d, "..")];
             a == if kind == Dir then c[d := c[d].(nlink := c[d].nlink + 1)][i := c[i].(ents := dots)] else c
    ensures forall name :: AfterCreate(ino, i, d, name, kind) == Put(a, d, Dirent(i, name))
  {
    if kind == Dir {
      var e := ino[i := Inode(Dir, 1, [Dirent(i, "."), Dirent(d, "..")])];
      assert a == e[d := e[d].(nlink := e[d].nlink + 1)];
    } else {
      assert a == ino[i := Inode(kind, 1, [])];
    }
  }

  /** There is no such entry, or it is a directory that still lists something. */
  predicate Refused(ino: seq<Inode>, d: nat, name: string)
    requires d < |ino|
  {
    var f := Find(ino[d].ents, name);
    f == 0 || f >= |ino| || (ino[f].kind == Dir && !Hollow(ino[f]))
  }

  /** An entry that is neither "." nor ".." comes after those two. */
  lemma FoundEntry(ino: seq<Inode>, d: nat, name: string)
    requires Tree(ino) && IsDir(ino, d) && Find(ino[d].ents, name) != 0 && name != "." && name != ".."
    ensures Entry(ino, d, Where(ino[d].ents, name)) && Used(ino, Find(ino[d].ents, name))
            && Find(ino[d].ents, name) != d
  {
    FoundUsed(ino, d, name);
    assert DirAt(ino, d) && ChildAt(ino, d, Where(ino[d].ents, name));
  }

  class NameSpace {
    var ino: seq<Inode>

    ghost predicate Valid()
      reads this
    {
      Inv(ino) && ino[0].kind == Free
    }

    /** The file system mkfs makes for these files. */
    constructor (n: nat, files: seq<string>)
      requires |files| + 2 <= n
      ensures ino == Formatted(n, Cuts(files)) && (Valid() <==> Differ(Cuts(files)))
    {
      ino := Formatted(n, Cuts(files));
      FormattedOkIffNamesDiffer(n, Cuts(files));
    }

    /** dirlookup(): the inode and the index of its entry; inode 0 for none. */
    method DirLookup(d: nat, name: string) returns (i: nat, k: nat)
      requires d < |ino| && ino[d].kind == Dir
      ensures i == Find(ino[d].ents, name)
      ensures i != 0 ==> k == Where(ino[d].ents, name)
    {
      var ents := ino[d].ents;
      k := 0;
      while k < |ents|
        invariant 0 <= k <= |ents| && forall j :: 0 <= j < k ==> ents[j].inum == 0 || ents[j].name != name
      {
        if ents[k].inum != 0 && ents[k].name == name {
          FindAt(ents, name, k);
          return ents[k].inum, k;
        }
        k := k + 1;
      }
      return 0, 0;
    }

    /** dirlink(): -1 if the name is there, else the entry goes to the first unused place. */
    method DirLink(d: nat, name: string, i: nat) returns (r: int)
      requires d < |ino| && ino[d].kind == Dir
      modifies this
      ensures r == if Absent(old(ino[d].ents), name) then 0 else -1
      ensures ino == if r == 0 then Put(old(ino), d, Dirent(i, name)) else old(ino)
    {
      var found, at := DirLookup(d, name);
      if found != 0 { return -1; }
      var ents := ino[d].ents;
      var k := 0;
      while k < |ents|
        invariant 0 <= k <= |ents| && forall j :: 0 <= j < k ==> ents[j].inum != 0
      {
        if ents[k].inum == 0 { break; }
        k := k + 1;
      }
      assert k == FirstFree(ents);
      ino := ino[d := ino[d].(ents := if k < |ents| then ents[k := Dirent(i, name)] else ents + [Dirent(i, name)])];
      return 0;
    }

    /** isdirempty() */
    method IsDirEmpty(c: nat) returns (b: bool)
      requires c < |ino|
      ensures b <==> Hollow(ino[c])
    {
      var k := 2;
      while k < |ino[c].ents|
        invariant 2 <= k && forall j :: 2 <= j < k && j < |ino[c].ents| ==> ino[c].ents[j].inum == 0
      {
        if ino[c].ents[k].inum != 0 { return false; }
        k := k + 1;
      }
      return true;
    }

    /** namex(): the inode a path leads to, or the directory of its last element and that element. */
    method Namex(path: string, cwd: nat, parent: bool) returns (i: nat, name: string)
      requires Tree(ino) && ino[0].kind == Free && IsDir(ino, cwd)
      ensures var start, names := Start(path, cwd), Elements(path);
              && i == (if parent then ParentDir(ino, start, names) else Resolve(ino, start, names))
              && (parent && i != 0 ==> IsDir(ino, i) && names != [] && name == names[|names| - 1])
              && (!parent && i != 0 ==> Used(ino, i))
    {
      assert DirAt(ino, ROOT);
      ghost var names := Elements(path);
      i := if path != "" && path[0] == '/' then ROOT else cwd;
      ghost var start := i;
      name := "";
      var p := path;
      while true
        invariant Used(ino, i)
        invariant !parent ==> Resolve(ino, i, Elements(p)) == Resolve(ino, start, names)
        invariant parent ==> ParentDir(ino, i, Elements(p)) == ParentDir(ino, start, names)
        invariant parent && names != [] ==> Elements(p) != [] && Elements(p)[|Elements(p)| - 1] == names[|names| - 1]
        invariant parent && names == [] ==> Elements(p) == []
        decreases |p|
      {
        var ok, rest;
        ghost var here := Elements(p);
        ok, name, rest := SkipElem(p);
        if !ok { break; }
        assert here[1..] == Elements(rest) && here[0] == name;
        p := rest;
        if ino[i].kind != Dir {
          if |here| >= 2 { ResolveSplit(ino, i, here); } else { assert here[..0] == []; }
          return 0, "";
        }
        assert DirAt(ino, i);
        if parent && p == "" {
          assert here[..0] == [];
          return;
        }
        if parent { ResolveSplit(ino, i, here); }
        var next, k := DirLookup(i, name);
        if next == 0 { return 0, ""; }
        FoundUsed(ino, i, name);
        i := next;
      }
      if parent { return 0, ""; }
    }

    /** ialloc(): the first free inode, 0 for none. */
    method Ialloc(kind: Kind) returns (i: nat)
      requires Valid()
      modifies this
      ensures i < |old(ino)| && (i == 0 ==> ino == old(ino) && forall j :: 0 < j < |ino| ==> ino[j].kind != Free)
      ensures i != 0 ==> old(ino[i].kind) == Free && ino == old(ino)[i := Inode(kind, 0, [])]
    {
      i := 1;
      while i < |ino|
        invariant 1 <= i <= |ino| && ino == old(ino) && forall j :: 0 < j < i ==> ino[j].kind != Free
      {
        if ino[i].kind == Free {
          ino := ino[i := Inode(kind, 0, [])];
          return;
        }
        i := i + 1;
      }
      return 0;
    }

    /** The part of create() that makes a new inode; `ok` is false when there is no free one. */
    method MakeNew(d: nat, name: string, kind: Kind) returns (ok: bool, i: nat)
      requires Valid() && IsDir(ino, d) && Absent(ino[d].ents, name) && kind != Free
      modifies this
      ensures ok <==> exists j :: 0 < j < |old(ino)| && old(ino)[j].kind == Free
      ensures !ok ==> ino == old(ino)
      ensures ok ==> 0 < i < |old(ino)| && old(ino[i].kind) == Free && ino == AfterCreate(old(ino), i, d, name, kind)
    {
      i := Ialloc(kind);
      if i == 0 { return false, 0; }
      ok := true;
      ino := ino[i := ino[i].(nlink := 1)];
      if kind == Dir { MakeDots(i, d); }
      CreateShape(old(ino), ino, i, d, kind);
      var r := DirLink(d, name, i);
    }

    /** The part of create() for a new directory: its parent's count, then its own two entries. */
    method MakeDots(i: nat, d: nat)
      requires 0 < i < |ino| && d < |ino| && i != d && ino[i].kind == Dir && ino[i].ents == []
      modifies this
      ensures var dots := [Dirent(i, "."), Dirent(d, "..")];
              ino == old(ino)[d := old(ino[d]).(nlink := old(ino[d].nlink) + 1)][i := old(ino[i]).(ents := dots)]
    {
      ino := ino[d := ino[d].(nlink := ino[d].nlink + 1)];
      DotsPut(ino, i, d);
      var r := DirLink(i, ".", i);
      assert ino[i].ents == [Dirent(i, ".")];
      r := DirLink(i, "..", d);
    }

    /** create() */
    method Create(path: string, cwd: nat, kind: Kind) returns (ok: bool, i: nat)
      requires Valid() && IsDir(ino, cwd) && kind != Free
      modifies this
      ensures Valid()
      ensures var names := Elements(path);
              var d := ParentDir(old(ino), Start(path, cwd), names);
              if d == 0 then ok && i == 0 && ino == old(ino)
              else
                && d < |old(ino)| && names != []
                && var name, f := names[|names| - 1], Find(old(ino[d].ents), names[|names| - 1]);
                if f != 0 then
                  && ok && ino == old(ino) && f < |ino|
                  && i == if kind == File && (ino[f].kind == File || ino[f].kind == Device) then f else 0
                else
                  && (!ok ==> ino == old(ino))
                  && (ok ==> 0 < i < |old(ino)| && old(ino)[i].kind == Free)
                  && (ok ==> ino == AfterCreate(old(ino), i, d, name, kind))
    {
      var d, name := Namex(path, cwd, true);
      if d == 0 { return true, 0; }
      var f, k := DirLookup(d, name);
      if f != 0 {
        FoundUsed(ino, d, name);
        if kind == File && (ino[f].kind == File || ino[f].kind == Device) { return true, f; }
        return true, 0;
      }
      ok, i := MakeNew(d, name, kind);
      if ok {
        CreateKeeps(old(ino), i, d, name, kind);
      }
    }

    /** sys_link(): the count goes up first and comes down again on every error exit. */
    method Link(oldPath: string, newPath: string, cwd: nat) returns (r: int)
      requires Valid() && IsDir(ino, cwd)
      modifies this
      ensures Valid()
      ensures var i := Resolve(old(ino), Start(oldPath, cwd), Elements(oldPath));
              var names := Elements(newPath);
              var d := ParentDir(old(ino), Start(newPath, cwd), names);
              if i != 0 && i < |old(ino)| && old(ino[i].kind) != Dir && d != 0 && names != []
              && Absent(old(ino[d].ents), names[|names| - 1])
              then r == 0 && ino == AfterLink(old(ino), i, d, names[|names| - 1])
              else r == -1 && ino == old(ino)
    {
      var i, none := Namex(oldPath, cwd, false);
      if i == 0 { return -1; }
      if ino[i].kind == Dir { return -1; }
      ino := ino[i := ino[i].(nlink := ino[i].nlink + 1)];
      ghost var raised := ino;
      ghost var names, start := Elements(newPath), Start(newPath, cwd);
      if names != [] { ResolveSame(old(ino), ino, start, names[..|names| - 1]); }
      Raised(old(ino), i);
      var d, name := Namex(newPath, cwd, true);
      r := -1;
      if d != 0 {
        r := DirLink(d, name, i);
        if r == 0 {
          LinkKeeps(old(ino), i, d, name);
          return 0;
        }
      }
      ino := ino[i := ino[i].(nlink := ino[i].nlink - 1)];
      assert ino == old(ino);
    }

    /** sys_unlink(), with `held` the inodes somebody else has a reference to.  The counts stay right
        exactly when no directory that is held is removed. */
    method Unlink(path: string, cwd: nat, held: set<nat>) returns (r: int)
      requires Valid() && IsDir(ino, cwd)
      modifies this
      ensures var names := Elements(path);
              var d := ParentDir(old(ino), Start(path, cwd), names);
              var name := if names == [] then "" else names[|names| - 1];
              if d == 0 || d >= |old(ino)| || name == "." || name == ".." || Refused(old(ino), d, name)
              then r == -1 && ino == old(ino)
              else
                var k := Where(old(ino[d].ents), name);
                && r == 0 && old(ino[d].ents)[k].inum < |old(ino)|
                && var f := old(ino[d].ents)[k].inum;
                   ino == AfterUnlink(old(ino), d, k, f in held)
                   && (Valid() <==> !(old(ino)[f].kind == Dir && f in held)) && (Valid() || Limbo(ino, f))
    {
      var d, name := Namex(path, cwd, true);
      if d == 0 { return -1; }
      if name == "." || name == ".." { return -1; }
      var i, k := DirLookup(d, name);
      if i == 0 { return -1; }
      FoundEntry(ino, d, name);
      NamedIsLinked(ino, d, k);
      assert ino[i].nlink >= 1;
      if ino[i].kind == Dir {
        var empty := IsDirEmpty(i);
        if !empty { return -1; }
      }
      UnlinkKeepsIffNotHeld(ino, d, k, i in held);
      if ino[i].kind == Dir { RemovedIsLimbo(ino, d, k); }
      Remove(d, k, i in held);
      return 0;
    }

    /** The part of sys_unlink() that changes things. */
    method Remove(d: nat, k: nat, held: bool)
      requires d < |ino| && k < |ino[d].ents| && ino[d].ents[k].inum < |ino| && ino[d].ents[k].inum != d
      modifies this
      ensures ino == AfterUnlink(old(ino), d, k, held)
    {
      var i := ino[d].ents[k].inum;
      ino := ino[d := ino[d].(ents := ino[d].ents[k := NONE])];
      if ino[i].kind == Dir {
        ino := ino[d := ino[d].(nlink := ino[d].nlink - 1)];
      }
      ino := ino[i := ino[i].(nlink := ino[i].nlink - 1)];
      if ino[i].nlink == 0 && !held {
        ino := ino[i := Inode(Free, 0, [])];
      }
    }

    /** iput() of the last reference to an inode: without links it is freed, a removed directory too, and
        with that everything is in order again. */
    method Drop(i: nat)
      requires Used(ino, i) && ino[0].kind == Free && (Inv(ino) || Limbo(ino, i))
      modifies this
      ensures Valid() && ino == if old(ino[i].nlink) == 0 then old(ino)[i := Inode(Free, 0, [])] else old(ino)
    {
      if Inv(ino) && ino[i].kind == Dir {
        assert DirAt(ino, i);
        DirLinked(ino, i);
      }
      if ino[i].nlink == 0 {
        if Inv(ino) { DropKeeps(ino, i); }
        ino := ino[i := Inode(Free, 0, [])];
      }
    }
  }
}