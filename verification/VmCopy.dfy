/** walkaddr(), copyout(), copyin() and copyinstr() of kernel/vm.c: bytes of an address space, reached
    through its page table. */
module VmCopy {
  import opened Finite
  import opened Kalloc
  import opened VmTree
  import opened Vm

  // ---- bytes of a page ------------------------------------------------------------------------------

  /** Byte i of a little-endian word. */
  function Digit(w: nat, i: nat): nat { if i == 0 then w % 256 else Digit(w / 256, i - 1) }

  function SetDigit(w: nat, i: nat, b: nat): nat {
    if i == 0 then w / 256 * 256 + b else SetDigit(w / 256, i - 1, b) * 256 + w % 256
  }

  lemma {:induction false} SetDigitAt(w: nat, i: nat, b: nat, j: nat)
    requires b < 256
    ensures Digit(SetDigit(w, i, b), j) == if j == i then b else Digit(w, j)
    decreases i
  {
    var r := SetDigit(w, i, b);
    if i == 0 {
      assert r / 256 == w / 256 && r % 256 == b;
    } else {
      assert r / 256 == SetDigit(w / 256, i - 1, b) && r % 256 == w % 256;
      if j > 0 { SetDigitAt(w / 256, i - 1, b, j - 1); }
    }
  }

  function ByteOf(p: Page, k: nat): nat
    requires k < 4096
  {
    Digit(p[k / 8], k % 8)
  }

  function SetByte(p: Page, k: nat, b: nat): Page
    requires k < 4096
  {
    p[k / 8 := SetDigit(p[k / 8], k % 8, b)]
  }

  lemma SetByteAt(p: Page, k: nat, b: nat, j: nat)
    requires k < 4096 && j < 4096 && b < 256
    ensures ByteOf(SetByte(p, k, b), j) == if j == k then b else ByteOf(p, j)
  {
    if j / 8 == k / 8 { SetDigitAt(p[k / 8], k % 8, b, j % 8); }
    assert j == j / 8 * 8 + j % 8 && k == k / 8 * 8 + k % 8;
  }

  predicate AreBytes(src: seq<nat>) { forall k :: 0 <= k < |src| ==> src[k] < 256 }

  /** memmove() of src into a page at o. */
  method MoveIn(p: Page, o: nat, src: seq<nat>) returns (r: Page)
    requires o + |src| <= 4096 && AreBytes(src)
    ensures forall j: nat {:trigger ByteOf(r, j)} :: j < 4096 ==>
              ByteOf(r, j) == if o <= j < o + |src| then src[j - o] else ByteOf(p, j)
  {
    r := p;
    for i := 0 to |src|
      invariant forall j: nat {:trigger ByteOf(r, j)} :: j < 4096 ==>
                  ByteOf(r, j) == if o <= j < o + i then src[j - o] else ByteOf(p, j)
    {
      ghost var was := r;
      r := SetByte(r, o + i, src[i]);
      forall j: nat | j < 4096 ensures ByteOf(r, j) == if o <= j < o + i + 1 then src[j - o] else ByteOf(p, j) {
        SetByteAt(was, o + i, src[i], j);
      }
    }
  }

  /** memmove() of n bytes out of a page. */
  method MoveOut(p: Page, o: nat, n: nat) returns (dst: seq<nat>)
    requires o + n <= 4096
    ensures |dst| == n && forall j :: 0 <= j < n ==> dst[j] == ByteOf(p, o + j)
  {
    dst := [];
    for i := 0 to n
      invariant |dst| == i && forall j :: 0 <= j < i ==> dst[j] == ByteOf(p, o + j)
    {
      dst := dst + [ByteOf(p, o + i)];
    }
  }

  // ---- bytes of an address space ----------------------------------------------------------------------

  /** The byte at virtual address a of the space whose pages are us. */
  function UserByte(mem: seq<Page>, us: seq<nat>, a: nat): nat {
    if a / 4096 < |us| && us[a / 4096] < |mem| then ByteOf(mem[us[a / 4096]], a % 4096) else 0
  }

  /** User code may use page v. */
  predicate Open(mem: seq<Page>, tab: Tables, us: seq<nat>, v: nat) { v < |us| && IsUser(Flat(mem, tab, v)) }

  predicate HiddenAt(mem: seq<Page>, tab: Tables, v: nat) { TRAPPAGE <= v < MAXPAGE ==> !IsUser(Flat(mem, tab, v)) }

  /** An address space in which the trap frame and the trampoline are not for user code. */
  ghost predicate UserSpace(lo: nat, mem: seq<Page>, free: seq<nat>, tab: Tables, us: seq<nat>) {
    Space(lo, mem, free, tab, us) && forall v: nat {:trigger HiddenAt(mem, tab, v)} :: HiddenAt(mem, tab, v)
  }

  /** The space of a process is one. */
  lemma ProcIsUserSpace(lo: nat, mem: seq<Page>, free: seq<nat>, tab: Tables, us: seq<nat>, trapframe: nat,
                        trampoline: nat)
    requires Proc(lo, mem, free, tab, us, trapframe, trampoline)
    ensures UserSpace(lo, mem, free, tab, us)
  {
    forall v: nat ensures HiddenAt(mem, tab, v) {
      NotUser(trapframe, RW);
      NotUser(trampoline, RX);
    }
  }

  lemma NotUser(pa: nat, perm: nat)
    requires perm == RW || perm == RX
    ensures !IsUser(Entry(pa, perm))
  {
    var q := pa / 4096;
    assert (q * 1024 + WithV(perm)) / 16 == q * 64 + WithV(perm) / 16;
  }

  /** walkaddr(): the physical page of a user page, and 0 for every other address. */
  method Walkaddr(m: Memory, root: nat, va: nat, ghost tab: Tables, ghost us: seq<nat>) returns (pa: nat)
    requires m.Valid() && UserSpace(m.lo, m.mem, m.free, tab, us) && tab[Root] == root
    modifies m
    ensures m.Valid() && m.mem == old(m.mem) && m.free == old(m.free)
    ensures pa != 0 <==> Open(m.mem, tab, us, va / 4096)
    ensures pa != 0 ==> pa == us[va / 4096] * 4096 && us[va / 4096] < |m.mem|
  {
    pa := 0;
    ghost var v := va / 4096;
    if va >= MAXVA {
      return;
    }
    assert LeafAt(m.mem, tab, 0, us, v) && ClearAt(m.mem, tab, |us|, v) && HiddenAt(m.mem, tab, v);
    assert v < |us| ==> us[v] in us;
    var found, page, idx, t := Walk(m, root, va, false, tab);
    if !found {
      return;
    }
    var pte := m.mem[page][idx];
    assert pte == Flat(m.mem, tab, v);
    if !IsValid(pte) || !IsUser(pte) {
      return;
    }
    pa := Pte2Pa(pte);
  }

  // ---- copyout() -------------------------------------------------------------------------------------------

  predicate PutAt(m0: seq<Page>, m1: seq<Page>, us: seq<nat>, dst: nat, n: nat, src: seq<nat>, a: nat) {
    n <= |src| ==> UserByte(m1, us, a) == if dst <= a < dst + n then src[a - dst] else UserByte(m0, us, a)
  }

  /** The first n bytes of src are at dst, and no other byte of the space has changed. */
  ghost predicate Put(m0: seq<Page>, m1: seq<Page>, us: seq<nat>, dst: nat, n: nat, src: seq<nat>) {
    forall a: nat {:trigger PutAt(m0, m1, us, dst, n, src, a)} :: PutAt(m0, m1, us, dst, n, src, a)
  }

  predicate OpenAt(mem: seq<Page>, tab: Tables, us: seq<nat>, dst: nat, n: nat, a: nat) {
    dst <= a < dst + n ==> Open(mem, tab, us, a / 4096)
  }

  /** User code may use all of the n bytes from dst on. */
  ghost predicate AllOpen(mem: seq<Page>, tab: Tables, us: seq<nat>, dst: nat, n: nat) {
    forall a: nat {:trigger OpenAt(mem, tab, us, dst, n, a)} :: OpenAt(mem, tab, us, dst, n, a)
  }

  lemma OnePage(us: seq<nat>, m0: seq<Page>, p: Page, dst: nat, src: seq<nat>)
    requires Distinct(us) && dst / 4096 < |us| && us[dst / 4096] < |m0| && dst % 4096 + |src| <= 4096
    requires forall j: nat {:trigger ByteOf(p, j)} :: j < 4096 ==>
               ByteOf(p, j) == if dst % 4096 <= j < dst % 4096 + |src| then src[j - dst % 4096]
                     else ByteOf(m0[us[dst / 4096]], j)
    ensures Put(m0, m0[us[dst / 4096] := p], us, dst, |src|, src)
  {
    var v, n := dst / 4096, |src|;
    var m1 := m0[us[v] := p];
    forall a: nat ensures PutAt(m0, m1, us, dst, n, src, a) {
      if a / 4096 < |us| && a / 4096 != v { assert DistinctAt(us, a / 4096, v) && DistinctAt(us, v, a / 4096); }
      SamePage4096(dst, n, a);
    }
  }

  lemma SamePage4096(dst: nat, n: nat, a: nat)
    requires dst % 4096 + n <= 4096
    ensures dst <= a < dst + n <==> a / 4096 == dst / 4096 && dst % 4096 <= a % 4096 < dst % 4096 + n
    ensures dst <= a < dst + n ==> a - dst == a % 4096 - dst % 4096
  {
  }

  lemma PutOn(m0: seq<Page>, m1: seq<Page>, m2: seq<Page>, us: seq<nat>, dst: nat, done: nat, n: nat, src: seq<nat>)
    requires done + n <= |src| && Put(m0, m1, us, dst, done, src) && Put(m1, m2, us, dst + done, n, src[done..done + n])
    ensures Put(m0, m2, us, dst, done + n, src)
  {
    var e := done + n;
    forall a: nat ensures PutAt(m0, m2, us, dst, e, src, a) {
      assert PutAt(m0, m1, us, dst, done, src, a) && PutAt(m1, m2, us, dst + done, n, src[done..done + n], a);
    }
  }

  lemma OpenOn(mem: seq<Page>, tab: Tables, us: seq<nat>, dst: nat, done: nat, n: nat)
    requires AllOpen(mem, tab, us, dst, done) && Open(mem, tab, us, (dst + done) / 4096)
             && (dst + done) % 4096 + n <= 4096
    ensures AllOpen(mem, tab, us, dst, done + n)
  {
    var e := done + n;
    forall a: nat ensures OpenAt(mem, tab, us, dst, e, a) {
      assert OpenAt(mem, tab, us, dst, done, a);
      SamePage4096(dst + done, n, a);
    }
  }

  /** A user page may hold any bytes: neither the tables nor the free list depend on it. */
  lemma PageWritten(lo: nat, m0: seq<Page>, free: seq<nat>, tab: Tables, us: seq<nat>, v: nat, p: Page)
    requires UserSpace(lo, m0, free, tab, us) && v < |us|
    ensures us[v] < |m0| && us[v] !in free
    ensures UserSpace(lo, m0[us[v] := p], free, tab, us) && SameFlat(m0, tab, m0[us[v] := p], tab)
  {
    assert us[v] in us;
    var m1 := m0[us[v] := p];
    TreeFrame(lo, m0, m1, tab);
    SpaceKept(lo, m0, free, tab, us, m1, free, tab);
    forall w: nat ensures HiddenAt(m1, tab, w) { assert HiddenAt(m0, tab, w) && SameAt(m0, tab, m1, tab, w); }
  }

  lemma OpenSame(m0: seq<Page>, m1: seq<Page>, tab: Tables, us: seq<nat>, v: nat)
    requires SameFlat(m0, tab, m1, tab) && |us| <= MAXPAGE
    ensures Open(m1, tab, us, v) <==> Open(m0, tab, us, v)
  {
    assert SameAt(m0, tab, m1, tab, v);
  }

  /** One turn of copyout(): the piece goes to address a, inside one page. */
  method PutPage(m: Memory, pa: nat, a: nat, piece: seq<nat>, ghost tab: Tables, ghost us: seq<nat>)
    requires m.Valid() && UserSpace(m.lo, m.mem, m.free, tab, us) && a / 4096 < |us| && pa == us[a / 4096] * 4096
    requires a % 4096 + |piece| <= 4096 && AreBytes(piece)
    modifies m
    ensures m.Valid() && UserSpace(m.lo, m.mem, m.free, tab, us) && m.free == old(m.free)
    ensures Put(old(m.mem), m.mem, us, a, |piece|, piece) && SameFlat(old(m.mem), tab, m.mem, tab)
    ensures OnlyThese(old(m.mem), m.mem, Set(us), [])
  {
    ghost var v := a / 4096;
    assert us[v] in us;
    var p := pa / 4096;
    var page := MoveIn(m.mem[p], a % 4096, piece);
    OnePage(us, m.mem, page, a, piece);
    PageWritten(m.lo, m.mem, m.free, tab, us, v, page);
    m.mem := m.mem[p := page];
    ChainFrame(old(m.mem), m.mem, m.freelist, m.free);
  }

  /** copyout(): it succeeds iff user code may use every byte of the range.  It puts src there up to the
      first page that is not for user code, and changes no other byte and no translation. */
  method Copyout(m: Memory, root: nat, dst: nat, src: seq<nat>, ghost tab: Tables, ghost us: seq<nat>)
      returns (r: int, ghost done: nat)
    requires m.Valid() && UserSpace(m.lo, m.mem, m.free, tab, us) && tab[Root] == root && AreBytes(src)
    modifies m
    ensures m.Valid() && UserSpace(m.lo, m.mem, m.free, tab, us) && m.free == old(m.free)
    ensures done <= |src| && Put(old(m.mem), m.mem, us, dst, done, src) && AllOpen(old(m.mem), tab, us, dst, done)
    ensures r == if done == |src| then 0 else -1
    ensures done < |src| ==> !Open(old(m.mem), tab, us, (dst + done) / 4096)
    ensures r == 0 <==> AllOpen(old(m.mem), tab, us, dst, |src|)
    ensures SameFlat(old(m.mem), tab, m.mem, tab) && OnlyThese(old(m.mem), m.mem, Set(us), [])
  {
    var a, n0 := dst, 0;
    done := 0;
    CopyStarts(m.mem, tab, us, dst, src);
    while n0 < |src|
      invariant 0 <= n0 <= |src| && done == n0 && a == dst + n0
      invariant m.Valid() && UserSpace(m.lo, m.mem, m.free, tab, us) && m.free == old(m.free)
      invariant Put(old(m.mem), m.mem, us, dst, n0, src) && AllOpen(old(m.mem), tab, us, dst, n0)
      invariant SameFlat(old(m.mem), tab, m.mem, tab) && OnlyThese(old(m.mem), m.mem, Set(us), [])
    {
      OpenSame(old(m.mem), m.mem, tab, us, a / 4096);
      var va0 := a - a % 4096;
      assert va0 / 4096 == a / 4096;
      var pa0 := Walkaddr(m, root, va0, tab, us);
      if pa0 == 0 {
        r := -1;
        assert !OpenAt(old(m.mem), tab, us, dst, |src|, a);
        return;
      }
      var n := 4096 - a % 4096;
      if n > |src| - n0 { n := |src| - n0; }
      ghost var m1 := m.mem;
      PutPage(m, pa0, a, src[n0..n0 + n], tab, us);
      PutOn(old(m.mem), m1, m.mem, us, dst, n0, n, src);
      OpenOn(old(m.mem), tab, us, dst, n0, n);
      SameOn(old(m.mem), m1, m.mem, tab);
      n0, a, done := n0 + n, a + n, done + n;
    }
    r := 0;
  }

  lemma CopyStarts(mem: seq<Page>, tab: Tables, us: seq<nat>, dst: nat, src: seq<nat>)
    ensures Put(mem, mem, us, dst, 0, src) && AllOpen(mem, tab, us, dst, 0) && SameFlat(mem, tab, mem, tab)
  {
    forall a: nat ensures PutAt(mem, mem, us, dst, 0, src, a) {}
    forall a: nat ensures OpenAt(mem, tab, us, dst, 0, a) {}
    forall v: nat ensures SameAt(mem, tab, mem, tab, v) {}
  }

  lemma SameOn(m0: seq<Page>, m1: seq<Page>, m2: seq<Page>, tab: Tables)
    requires SameFlat(m0, tab, m1, tab) && SameFlat(m1, tab, m2, tab)
    ensures SameFlat(m0, tab, m2, tab)
  {
    forall v: nat ensures SameAt(m0, tab, m2, tab, v) {
      assert SameAt(m0, tab, m1, tab, v) && SameAt(m1, tab, m2, tab, v);
    }
  }

  // ---- copyin(), copyinstr() ---------------------------------------------------------------------------------

  predicate GotAt(mem: seq<Page>, us: seq<nat>, src: nat, dst: seq<nat>, k: nat) {
    k < |dst| ==> dst[k] == UserByte(mem, us, src + k)
  }

  /** dst is what the space holds from src on. */
  ghost predicate Got(mem: seq<Page>, us: seq<nat>, src: nat, dst: seq<nat>) {
    forall k: nat {:trigger GotAt(mem, us, src, dst, k)} :: GotAt(mem, us, src, dst, k)
  }

  lemma GotOn(mem: seq<Page>, us: seq<nat>, src: nat, dst: seq<nat>, more: seq<nat>)
    requires Got(mem, us, src, dst) && (src + |dst|) / 4096 < |us| && us[(src + |dst|) / 4096] < |mem|
    requires (src + |dst|) % 4096 + |more| <= 4096
    requires forall j :: 0 <= j < |more| ==> more[j] == ByteOf(mem[us[(src + |dst|) / 4096]], (src + |dst|) % 4096 + j)
    ensures Got(mem, us, src, dst + more)
  {
    var all, a := dst + more, src + |dst|;
    forall k: nat ensures GotAt(mem, us, src, all, k) {
      assert GotAt(mem, us, src, dst, k);
      if |dst| <= k < |all| { SamePage4096(a, |more|, src + k); }
    }
  }

  /** copyin(): it succeeds iff user code may use every byte of the range, and then returns them. */
  method Copyin(m: Memory, root: nat, src: nat, len: nat, ghost tab: Tables, ghost us: seq<nat>)
      returns (r: int, dst: seq<nat>)
    requires m.Valid() && UserSpace(m.lo, m.mem, m.free, tab, us) && tab[Root] == root
    modifies m
    ensures m.Valid() && m.mem == old(m.mem) && m.free == old(m.free)
    ensures Got(m.mem, us, src, dst) && AllOpen(m.mem, tab, us, src, |dst|) && |dst| <= len
    ensures r == if |dst| == len then 0 else -1
    ensures r == 0 <==> AllOpen(m.mem, tab, us, src, len)
  {
    dst := [];
    CopyStarts(m.mem, tab, us, src, []);
    while |dst| < len
      invariant |dst| <= len && m.Valid() && m.mem == old(m.mem) && m.free == old(m.free)
      invariant Got(m.mem, us, src, dst) && AllOpen(m.mem, tab, us, src, |dst|)
    {
      var a := src + |dst|;
      var va0 := a - a % 4096;
      assert va0 / 4096 == a / 4096;
      var pa0 := Walkaddr(m, root, va0, tab, us);
      if pa0 == 0 {
        r := -1;
        assert !OpenAt(m.mem, tab, us, src, len, a);
        return;
      }
      var n := 4096 - a % 4096;
      if n > len - |dst| { n := len - |dst|; }
      var more := MoveOut(m.mem[pa0 / 4096], a % 4096, n);
      GotOn(m.mem, us, src, dst, more);
      OpenOn(m.mem, tab, us, src, |dst|, n);
      dst := dst + more;
    }
    r := 0;
  }

  /** What copyout() put into a space is what copyin() gets back. */
  lemma CopyRoundTrip(m0: seq<Page>, m1: seq<Page>, us: seq<nat>, at: nat, src: seq<nat>, dst: seq<nat>)
    requires Put(m0, m1, us, at, |src|, src) && Got(m1, us, at, dst) && |dst| == |src|
    ensures dst == src
  {
    forall k: nat | k < |src| ensures dst[k] == src[k] {
      assert PutAt(m0, m1, us, at, |src|, src, at + k) && GotAt(m1, us, at, dst, k);
    }
  }

  /** The inner loop of copyinstr(): the bytes up to a zero, or n of them. */
  method StringOut(p: Page, o: nat, n: nat) returns (dst: seq<nat>, gotNull: bool)
    requires o + n <= 4096
    ensures |dst| <= n && (forall j :: 0 <= j < |dst| ==> dst[j] == ByteOf(p, o + j) && dst[j] != 0)
    ensures if gotNull then |dst| < n && ByteOf(p, o + |dst|) == 0 else |dst| == n
  {
    dst, gotNull := [], false;
    while |dst| < n
      invariant |dst| <= n && forall j :: 0 <= j < |dst| ==> dst[j] == ByteOf(p, o + j) && dst[j] != 0
    {
      var b := ByteOf(p, o + |dst|);
      if b == 0 {
        gotNull := true;
        return;
      }
      dst := dst + [b];
    }
  }

  predicate NoZero(s: seq<nat>) { forall k :: 0 <= k < |s| ==> s[k] != 0 }

  /** copyinstr(): it succeeds iff a zero byte comes among the first max ones and user code may use
      everything up to it; dst is the string before the zero. */
  method Copyinstr(m: Memory, root: nat, src: nat, max: nat, ghost tab: Tables, ghost us: seq<nat>)
      returns (r: int, dst: seq<nat>)
    requires m.Valid() && UserSpace(m.lo, m.mem, m.free, tab, us) && tab[Root] == root
    modifies m
    ensures m.Valid() && m.mem == old(m.mem) && m.free == old(m.free)
    ensures Got(m.mem, us, src, dst) && AllOpen(m.mem, tab, us, src, |dst|) && NoZero(dst) && |dst| <= max
            && (r == 0 || r == -1)
    ensures r == 0 ==>
              |dst| < max && Open(m.mem, tab, us, (src + |dst|) / 4096) && UserByte(m.mem, us, src + |dst|) == 0
    ensures r == -1 ==> |dst| == max || !Open(m.mem, tab, us, (src + |dst|) / 4096)
  {
    dst := [];
    var gotNull := false;
    CopyStarts(m.mem, tab, us, src, []);
    while !gotNull && |dst| < max
      invariant |dst| <= max && m.Valid() && m.mem == old(m.mem) && m.free == old(m.free)
      invariant Got(m.mem, us, src, dst) && AllOpen(m.mem, tab, us, src, |dst|) && NoZero(dst)
      invariant gotNull ==>
                  |dst| < max && Open(m.mem, tab, us, (src + |dst|) / 4096) && UserByte(m.mem, us, src + |dst|) == 0
      decreases !gotNull, max - |dst|
    {
      var a := src + |dst|;
      var va0 := a - a % 4096;
      assert va0 / 4096 == a / 4096;
      var pa0 := Walkaddr(m, root, va0, tab, us);
      if pa0 == 0 {
        r := -1;
        return;
      }
      var n := 4096 - a % 4096;
      if n > max - |dst| { n := max - |dst|; }
      var more;
      more, gotNull := StringOut(m.mem[pa0 / 4096], a % 4096, n);
      GotOn(m.mem, us, src, dst, more);
      OpenOn(m.mem, tab, us, src, |dst|, |more|);
      if gotNull { SamePage4096(a, |more| + 1, a + |more|); }
      dst := dst + more;
    }
    r := if gotNull then 0 else -1;
  }
}
