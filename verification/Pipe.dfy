/** kernel/pipe.c: a ring of PIPESIZE bytes whose two 32-bit counters wrap around, and the
    writers and readers that sleep on it.  A step is what one thread does while it holds the
    pipe lock, cut at every byte. */
module Pipe {

  const PIPESIZE: nat := 512
  const MOD: nat := 0x1_0000_0000

  type byte = int

  // ---- the ring ----------------------------------------------------------------------------

  /** `sent` and `got` are the bytes ever written and read; the fields hold them modulo 2^32. */
  datatype Ring = Ring(data: seq<byte>, nread: nat, nwrite: nat)

  function Put(r: Ring, b: byte): Ring
    requires |r.data| == PIPESIZE
  {
    Ring(r.data[r.nwrite % PIPESIZE := b], r.nread, (r.nwrite + 1) % MOD)
  }

  function Next(r: Ring): byte
    requires |r.data| == PIPESIZE
  {
    r.data[r.nread % PIPESIZE]
  }

  function Take(r: Ring): Ring { r.(nread := (r.nread + 1) % MOD) }

  predicate Full(r: Ring) { r.nwrite == (r.nread + PIPESIZE) % MOD }

  predicate Empty(r: Ring) { r.nread == r.nwrite }

  ghost predicate Holds(r: Ring, sent: seq<byte>, k: nat)
    requires k < |sent| && |r.data| == PIPESIZE
  {
    r.data[k % PIPESIZE] == sent[k]
  }

  /** The ring is the queue of bytes sent and not yet got. */
  ghost predicate Queue(r: Ring, sent: seq<byte>, got: seq<byte>) {
    && |r.data| == PIPESIZE && got <= sent && |sent| - |got| <= PIPESIZE
    && r.nwrite == |sent| % MOD && r.nread == |got| % MOD
    && forall k: nat {:trigger Holds(r, sent, k)} :: |got| <= k < |sent| ==> Holds(r, sent, k)
  }

  lemma ModPipe(n: nat)
    ensures (n % MOD) % PIPESIZE == n % PIPESIZE
    ensures (n % MOD + 1) % MOD == (n + 1) % MOD
    ensures (n % MOD + PIPESIZE) % MOD == (n + PIPESIZE) % MOD
  {
    var q := n / MOD;
    assert n == q * MOD + n % MOD;
    assert MOD == PIPESIZE * 0x80_0000;
    assert n == (q * 0x80_0000) * PIPESIZE + n % MOD;
    ModAdd(n % MOD, q * 0x80_0000, PIPESIZE);
    ModAdd(n % MOD + 1, q, MOD);
    ModAdd(n % MOD + PIPESIZE, q, MOD);
  }

  lemma ModAdd(a: nat, q: nat, m: nat)
    requires m > 0
    ensures (q * m + a) % m == a % m
  {
    var d := a / m;
    assert a == d * m + a % m;
    assert q * m + a == (q + d) * m + a % m;
    DivUnique(q * m + a, m, q + d, a % m);
  }

  lemma DivUnique(x: int, m: int, q: int, r: int)
    requires m > 0 && x == q * m + r && 0 <= r < m
    ensures x % m == r
  {
    var q', r' := x / m, x % m;
    assert x == q' * m + r';
    assert (q - q') * m == r' - r;
    assert q - q' >= 1 ==> (q - q') * m >= m;
    assert q - q' <= -1 ==> (q - q') * m <= -m;
  }

  /** Fewer than m apart, two counts are equal exactly when their residues are. */
  lemma ModSame(a: nat, b: nat, m: nat)
    requires a <= b < a + m
    ensures a % m == b % m <==> a == b
  {
    if a % m == b % m {
      var d := b / m - a / m;
      assert b == (b / m) * m + b % m && a == (a / m) * m + a % m;
      assert b - a == d * m;
      assert d >= 1 ==> d * m >= m;
      assert d < 0 ==> d * m < 0;
    }
  }

  /** The two tests of the code mean full and empty, through any number of wrap-arounds. */
  lemma TestsExact(r: Ring, sent: seq<byte>, got: seq<byte>)
    requires Queue(r, sent, got)
    ensures Full(r) <==> |sent| - |got| == PIPESIZE
    ensures Empty(r) <==> sent == got
  {
    ModPipe(|got|);
    ModSame(|sent|, |got| + PIPESIZE, MOD);
    ModSame(|got|, |sent|, MOD);
  }

  lemma PutQueues(r: Ring, sent: seq<byte>, got: seq<byte>, b: byte)
    requires Queue(r, sent, got) && !Full(r)
    ensures Queue(Put(r, b), sent + [b], got)
  {
    TestsExact(r, sent, got);
    ModPipe(|sent|);
    var r', sent' := Put(r, b), sent + [b];
    forall k: nat | |got| <= k < |sent'|
      ensures Holds(r', sent', k)
    {
      if k < |sent| {
        assert Holds(r, sent, k);
        ModSame(k, |sent|, PIPESIZE);
      }
    }
  }

  lemma TakeQueues(r: Ring, sent: seq<byte>, got: seq<byte>)
    requires Queue(r, sent, got) && !Empty(r)
    ensures Queue(Take(r), sent, got + [Next(r)])
  {
    TestsExact(r, sent, got);
    ModPipe(|got|);
    assert Holds(r, sent, |got|);
    var r' := Take(r);
    forall k: nat | |got| + 1 <= k < |sent|
      ensures Holds(r', sent, k)
    {
      assert Holds(r, sent, k);
    }
  }

  /** The ring as the code holds it, one process at a time. */
  class Buffer {
    var data: array<byte>
    var nread: nat
    var nwrite: nat
    ghost var sent: seq<byte>
    ghost var got: seq<byte>

    ghost function Value(): Ring
      reads this, data
    {
      Ring(data[..], nread, nwrite)
    }

    ghost predicate Valid()
      reads this, data
    {
      Queue(Value(), sent, got)
    }

    constructor ()
      ensures Valid() && sent == [] && got == [] && fresh(data)
    {
      data := new byte[PIPESIZE];
      nread, nwrite, sent, got := 0, 0, [], [];
    }

    /** pipewrite() up to the first time it has to wait: how much went in. */
    method Write(src: seq<byte>) returns (i: nat)
      requires Valid()
      modifies this, data
      ensures Valid() && data == old(data) && got == old(got)
      ensures i <= |src| && sent == old(sent) + src[..i]
      ensures i < |src| ==> |sent| - |got| == PIPESIZE
    {
      i := 0;
      while i < |src|
        invariant 0 <= i <= |src| && Valid() && data == old(data) && got == old(got)
        invariant sent == old(sent) + src[..i]
      {
        if nwrite == (nread + PIPESIZE) % MOD {
          TestsExact(Value(), sent, got);
          return;
        }
        PutQueues(Value(), sent, got, src[i]);
        ghost var r := Put(Value(), src[i]);
        data[nwrite % PIPESIZE] := src[i];
        nwrite := (nwrite + 1) % MOD;
        sent := sent + [src[i]];
        assert Value() == r;
        i := i + 1;
      }
    }

    /** The copy loop of piperead(): at most n bytes, oldest first. */
    method Read(n: nat) returns (dst: seq<byte>)
      requires Valid()
      modifies this
      ensures Valid() && sent == old(sent) && got == old(got) + dst
      ensures |dst| <= n && (|dst| < n ==> got == sent)
    {
      dst := [];
      while |dst| < n
        invariant |dst| <= n && Valid() && sent == old(sent) && got == old(got) + dst
      {
        TestsExact(Value(), sent, got);
        if nread == nwrite {
          break;
        }
        TakeQueues(Value(), sent, got);
        var b := data[nread % PIPESIZE];
        nread := (nread + 1) % MOD;
        got := got + [b];
        dst := dst + [b];
      }
    }
  }

  // ---- writers and readers -------------------------------------------------------------------

  datatype Thread =
    | Away                                    // not in the pipe code
    | Writing(src: seq<byte>, i: nat)         // in pipewrite(), holding the lock
    | WriteAsleep(src: seq<byte>, i: nat)     // asleep on nwrite
    | WriteAwake(src: seq<byte>, i: nat)      // woken, waiting for the lock
    | Waiting(n: nat)                         // in the first loop of piperead(), holding the lock
    | Copying(n: nat, i: nat)                 // in the copy loop, holding the lock
    | ReadAsleep(n: nat)                      // asleep on nread
    | ReadAwake(n: nat)

  datatype State = State(
    ring: Ring, sent: seq<byte>, got: seq<byte>,
    readopen: bool, writeopen: bool,
    holder: int,                              // who has the lock, -1 for nobody
    th: seq<Thread>,
    killed: set<nat>)

  datatype Step =
    | StartWrite(t: nat, src: seq<byte>) | WriteByte(t: nat) | WriteWait(t: nat) | WriteQuit(t: nat)
    | WriteDone(t: nat)
    | StartRead(t: nat, n: nat) | ReadWait(t: nat) | ReadQuit(t: nat) | ReadGo(t: nat) | ReadByte(t: nat)
    | ReadDone(t: nat)
    | Resume(t: nat) | Kill(t: nat) | Close(writable: bool)

  /** wakeup(&nread), wakeup(&nwrite) */
  function Wake(x: Thread, readers: bool): Thread {
    match x
    case ReadAsleep(n) => if readers then ReadAwake(n) else x
    case WriteAsleep(src, i) => if readers then x else WriteAwake(src, i)
    case _ => x
  }

  function WakeAll(th: seq<Thread>, readers: bool): (r: seq<Thread>)
    ensures |r| == |th| && forall t :: 0 <= t < |th| ==> r[t] == Wake(th[t], readers)
  {
    seq(|th|, t requires 0 <= t < |th| => Wake(th[t], readers))
  }

  predicate Has(s: State, t: nat) { t < |s.th| && s.holder == t }

  predicate IsReader(x: Thread) { x.Waiting? || x.Copying? || x.ReadAsleep? || x.ReadAwake? }
  predicate IsWriter(x: Thread) { x.Writing? || x.WriteAsleep? || x.WriteAwake? }

  predicate Enabled(s: State, a: Step)
  {
    match a
    case StartWrite(t, src) => s.holder == -1 && t < |s.th| && s.th[t].Away? && s.writeopen
    case WriteByte(t) => Has(s, t) && s.th[t].Writing? && s.th[t].i < |s.th[t].src| && !Full(s.ring)
    && |s.ring.data| == PIPESIZE
    case WriteWait(t) =>
      && Has(s, t) && s.th[t].Writing? && s.th[t].i < |s.th[t].src| && Full(s.ring)
      && s.readopen && t !in s.killed
    case WriteQuit(t) =>
      && Has(s, t) && s.th[t].Writing? && s.th[t].i < |s.th[t].src| && Full(s.ring)
      && (!s.readopen || t in s.killed)
    case WriteDone(t) =>
      // all written, or a copyin() failed
      Has(s, t) && s.th[t].Writing? && (s.th[t].i == |s.th[t].src| || !Full(s.ring))
    case StartRead(t, n) => s.holder == -1 && t < |s.th| && s.th[t].Away? && s.readopen
    case ReadWait(t) => Has(s, t) && s.th[t].Waiting? && Empty(s.ring) && s.writeopen && t !in s.killed
    case ReadQuit(t) => Has(s, t) && s.th[t].Waiting? && Empty(s.ring) && s.writeopen && t in s.killed
    case ReadGo(t) => Has(s, t) && s.th[t].Waiting? && !(Empty(s.ring) && s.writeopen)
    case ReadByte(t) =>
      Has(s, t) && s.th[t].Copying? && s.th[t].i < s.th[t].n && !Empty(s.ring) && |s.ring.data| == PIPESIZE
    case ReadDone(t) =>
      // n read, or empty, or a copyout() failed
      Has(s, t) && s.th[t].Copying? && (s.th[t].i == s.th[t].n || Empty(s.ring) || s.th[t].i > 0)
    case Resume(t) => s.holder == -1 && t < |s.th| && (s.th[t].WriteAwake? || s.th[t].ReadAwake?)
    case Kill(t) => t < |s.th|
    case Close(writable) =>
      // the last reference to an end goes away only when nobody is using it
      && s.holder == -1 && (if writable then s.writeopen else s.readopen)
      && forall t :: 0 <= t < |s.th| ==> if writable then !IsWriter(s.th[t]) else !IsReader(s.th[t])
  }

  function Apply(s: State, a: Step): State
    requires Enabled(s, a)
  {
    match a
    case StartWrite(t, src) => s.(holder := t, th := s.th[t := Writing(src, 0)])
    case WriteByte(t) =>
      var b := s.th[t].src[s.th[t].i];
      s.(ring := Put(s.ring, b), sent := s.sent + [b], th := s.th[t := Writing(s.th[t].src, s.th[t].i + 1)])
    case WriteWait(t) =>
      s.(holder := -1, th := WakeAll(s.th, true)[t := WriteAsleep(s.th[t].src, s.th[t].i)])
    case WriteQuit(t) => s.(holder := -1, th := s.th[t := Away])
    case WriteDone(t) => s.(holder := -1, th := WakeAll(s.th, true)[t := Away])
    case StartRead(t, n) => s.(holder := t, th := s.th[t := Waiting(n)])
    case ReadWait(t) => s.(holder := -1, th := s.th[t := ReadAsleep(s.th[t].n)])
    case ReadQuit(t) => s.(holder := -1, th := s.th[t := Away])
    case ReadGo(t) => s.(th := s.th[t := Copying(s.th[t].n, 0)])
    case ReadByte(t) =>
      s.(ring := Take(s.ring), got := s.got + [Next(s.ring)], th := s.th[t := Copying(s.th[t].n, s.th[t].i + 1)])
    case ReadDone(t) => s.(holder := -1, th := WakeAll(s.th, false)[t := Away])
    case Resume(t) =>
      s.(holder := t, th := s.th[t := match s.th[t]
                                      case WriteAwake(src, i) => Writing(src, i)
                                      case ReadAwake(n) => Waiting(n)
                                      case x => x])
    case Kill(t) => s.(killed := s.killed + {t}, th := s.th[t := Wake(Wake(s.th[t], true), false)])
    case Close(writable) =>
      if writable then s.(writeopen := false, th := WakeAll(s.th, true))
      else s.(readopen := false, th := WakeAll(s.th, false))
  }

  /** Only the holder of the lock is running in the pipe code. */
  predicate HolderOk(s: State) {
    && -1 <= s.holder < |s.th|
    && (forall t :: 0 <= t < |s.th| ==> (s.th[t].Writing? || s.th[t].Waiting? || s.th[t].Copying? <==> s.holder == t))
    && (forall t :: 0 <= t < |s.th| ==> (IsWriter(s.th[t]) ==> s.writeopen) && (IsReader(s.th[t]) ==> s.readopen))
  }

  /** A writer sleeps only on a full pipe with a reader, unless a reader is at work. */
  predicate WritersOk(s: State) {
    forall t :: 0 <= t < |s.th| && s.th[t].WriteAsleep? ==>
      s.readopen && (Full(s.ring) || (0 <= s.holder < |s.th| && s.th[s.holder].Copying?))
  }

  /** A reader sleeps only on an empty pipe with a writer, unless a writer is at work. */
  predicate ReadersOk(s: State) {
    forall t :: 0 <= t < |s.th| && s.th[t].ReadAsleep? ==>
      s.writeopen && (Empty(s.ring) || (0 <= s.holder < |s.th| && s.th[s.holder].Writing?))
  }

  ghost predicate Inv(s: State) {
    Queue(s.ring, s.sent, s.got) && HolderOk(s) && WritersOk(s)
  }

  /** The only step that can leave a reader asleep on a pipe with bytes in it: a killed writer
      returns without the wakeup. */
  predicate SkipsWakeup(s: State, a: Step) {
    a.WriteQuit? && exists t :: 0 <= t < |s.th| && s.th[t].ReadAsleep?
  }

  lemma QueueKept(s: State, a: Step)
    requires Inv(s) && Enabled(s, a)
    ensures var s' := Apply(s, a); Queue(s'.ring, s'.sent, s'.got)
  {
    match a
    case WriteByte(t) => PutQueues(s.ring, s.sent, s.got, s.th[t].src[s.th[t].i]);
    case ReadByte(t) => TakeQueues(s.ring, s.sent, s.got);
    case _ =>
  }

  lemma HolderKept(s: State, a: Step)
    requires Inv(s) && Enabled(s, a)
    ensures HolderOk(Apply(s, a))
  {
  }

  lemma WritersKept(s: State, a: Step)
    requires Inv(s) && Enabled(s, a)
    ensures WritersOk(Apply(s, a))
  {
    TestsExact(s.ring, s.sent, s.got);
  }

  /** Sleeping readers stay justified exactly as long as no wakeup is skipped. */
  lemma ReadersKept(s: State, a: Step)
    requires Inv(s) && ReadersOk(s) && Enabled(s, a)
    ensures ReadersOk(Apply(s, a)) <==> !SkipsWakeup(s, a)
  {
    TestsExact(s.ring, s.sent, s.got);
    if SkipsWakeup(s, a) {
      var t :| 0 <= t < |s.th| && s.th[t].ReadAsleep?;
      assert Apply(s, a).th[t].ReadAsleep?;
    }
  }

  // ---- runs ------------------------------------------------------------------------------------

  ghost predicate Legal(s: State, acts: seq<Step>)
    decreases |acts|, 0
  {
    acts == [] ||
    (Legal(s, acts[..|acts| - 1]) && Enabled(Exec(s, acts[..|acts| - 1]), acts[|acts| - 1]))
  }

  ghost function Exec(s: State, acts: seq<Step>): State
    requires Legal(s, acts)
    decreases |acts|, 1
  {
    if acts == [] then s else Apply(Exec(s, acts[..|acts| - 1]), acts[|acts| - 1])
  }

  predicate Start(s: State) {
    && s.ring == Ring(s.ring.data, 0, 0) && |s.ring.data| == PIPESIZE && s.sent == [] && s.got == []
    && s.readopen && s.writeopen && s.holder == -1
    && forall t :: 0 <= t < |s.th| ==> s.th[t].Away?
  }

  /** In every run: first in, first out; never more than PIPESIZE bytes inside; and when nobody
      holds the lock a sleeping writer faces a full pipe with an open reader. */
  lemma {:induction false} EveryRun(s: State, acts: seq<Step>)
    requires Start(s) && Legal(s, acts)
    ensures var f := Exec(s, acts);
            && Inv(f) && f.got <= f.sent && |f.sent| - |f.got| <= PIPESIZE
            && (f.holder == -1 ==> forall t :: 0 <= t < |f.th| && f.th[t].WriteAsleep? ==> f.readopen && Full(f.ring))
    decreases |acts|
  {
    if acts != [] {
      var front, a := acts[..|acts| - 1], acts[|acts| - 1];
      EveryRun(s, front);
      QueueKept(Exec(s, front), a);
      HolderKept(Exec(s, front), a);
      WritersKept(Exec(s, front), a);
    }
  }

  /** Sleeping readers are justified after every prefix of the run. */
  ghost predicate AlwaysReadersOk(s: State, acts: seq<Step>)
    requires Legal(s, acts)
    decreases |acts|
  {
    ReadersOk(Exec(s, acts)) && (acts != [] ==> AlwaysReadersOk(s, acts[..|acts| - 1]))
  }

  /** No step of the run is a killed writer that leaves sleeping readers behind. */
  ghost predicate NeverSkips(s: State, acts: seq<Step>)
    requires Legal(s, acts)
    decreases |acts|
  {
    acts != [] ==>
      NeverSkips(s, acts[..|acts| - 1]) && !SkipsWakeup(Exec(s, acts[..|acts| - 1]), acts[|acts| - 1])
  }

  /** Sleeping readers stay justified all along a run iff none of its steps skips their wakeup; then a
      sleeping reader faces an empty pipe with an open writer whenever nobody holds the lock. */
  lemma {:induction false} ReadersOkIffNeverSkips(s: State, acts: seq<Step>)
    requires Start(s) && Legal(s, acts)
    ensures AlwaysReadersOk(s, acts) <==> NeverSkips(s, acts)
    ensures var f := Exec(s, acts);
            NeverSkips(s, acts) && f.holder == -1 ==>
              forall t :: 0 <= t < |f.th| && f.th[t].ReadAsleep? ==> f.writeopen && Empty(f.ring)
    decreases |acts|
  {
    if acts != [] {
      var front, a := acts[..|acts| - 1], acts[|acts| - 1];
      ReadersOkIffNeverSkips(s, front);
      EveryRun(s, front);
      if AlwaysReadersOk(s, front) { ReadersKept(Exec(s, front), a); }
    }
  }

  // ---- the skipped wakeup happens ----------------------------------------------------------------

  ghost predicate Reaches(s: State, f: State) {
    exists acts :: Legal(s, acts) && Exec(s, acts) == f
  }

  lemma Extend(s: State, p: State, a: Step)
    requires Reaches(s, p) && Enabled(p, a)
    ensures Reaches(s, Apply(p, a))
  {
    var acts :| Legal(s, acts) && Exec(s, acts) == p;
    var more := acts + [a];
    assert more[..|more| - 1] == acts;
    assert Legal(s, more) && Exec(s, more) == Apply(p, a);
  }

  /** The pipe holds the first k bytes of src and the reader sleeps. */
  ghost predicate Filling(s: State, f: State, src: seq<byte>, k: nat) {
    && Reaches(s, f) && Queue(f.ring, f.sent, f.got) && f.got == [] && |f.sent| == k
    && f.th == [ReadAsleep(1), Writing(src, k)] && f.holder == 1
  }

  /** Thread 1 writes another byte while thread 0 sleeps. */
  lemma WriteNext(s: State, q: State, src: seq<byte>, k: nat) returns (f: State)
    requires Filling(s, q, src, k) && k < |src| && k < PIPESIZE
    ensures Filling(s, f, src, k + 1) && f.readopen == q.readopen
  {
    TestsExact(q.ring, q.sent, q.got);
    PutQueues(q.ring, q.sent, q.got, src[k]);
    Extend(s, q, WriteByte(1));
    f := Apply(q, WriteByte(1));
  }

  lemma {:induction false} WriteMany(s: State, p: State, src: seq<byte>, k: nat) returns (f: State)
    requires Filling(s, p, src, 0) && k <= |src| && k <= PIPESIZE
    ensures Filling(s, f, src, k) && f.readopen == p.readopen
  {
    if k == 0 {
      f := p;
    } else {
      var q := WriteMany(s, p, src, k - 1);
      f := WriteNext(s, q, src, k - 1);
    }
  }

  /** A reader is left asleep on a full pipe that nobody holds: the killed exit of pipewrite(). */
  lemma KilledWriterStrandsReader(s: State, src: seq<byte>) returns (f: State)
    requires Start(s) && |s.th| == 2 && |src| == PIPESIZE + 1 && s.killed == {}
    ensures Reaches(s, f) && f.holder == -1 && |f.th| == 2 && f.th[0].ReadAsleep? && Full(f.ring) && !ReadersOk(f)
  {
    assert Legal(s, []) && Exec(s, []) == s;
    Extend(s, s, StartRead(0, 1));
    var s1 := s.(holder := 0, th := [Waiting(1), Away]);
    assert Apply(s, StartRead(0, 1)) == s1;
    Extend(s, s1, ReadWait(0));
    var s2 := s.(th := [ReadAsleep(1), Away]);
    assert Apply(s1, ReadWait(0)) == s2;
    Extend(s, s2, StartWrite(1, src));
    var s3 := s.(holder := 1, th := [ReadAsleep(1), Writing(src, 0)]);
    assert Apply(s2, StartWrite(1, src)) == s3;
    var s4 := WriteMany(s, s3, src, PIPESIZE);
    TestsExact(s4.ring, s4.sent, s4.got);
    Extend(s, s4, Kill(1));
    var s5 := Apply(s4, Kill(1));
    Extend(s, s5, WriteQuit(1));
    f := Apply(s5, WriteQuit(1));
  }
}
