/** Bits and little-endian words inside a disk block, as kernel/fs.c reads and writes them. */
module FsBytes {

  const BSIZE: nat := 1024
  const BPB: nat := 8192                    // bits per bitmap block
  const NINDIRECT: nat := 256               // words per indirect block
  const WORD: nat := 0x1_0000_0000

  type byte = bv8
  type Block = b: seq<byte> | |b| == 1024 witness seq(1024, _ => 0)

  function Zeroes(): Block { seq(1024, _ => 0) }

  // ---- bits: data[i/8] and the mask 1 << (i % 8) ----------------------------------------------

  function Mask(k: nat): byte
    requires k < 8
  {
    1 << k
  }

  lemma MaskOf(k: nat)
    requires k < 8
    ensures Mask(k) == [1, 2, 4, 8, 16, 32, 64, 128][k]
  {
  }

  lemma OrBit(x: byte, k: nat, j: nat)
    requires k < 8 && j < 8
    ensures (x | Mask(k)) & Mask(j) == 0 <==> j != k && x & Mask(j) == 0
  {
    MaskOf(k);
    MaskOf(j);
  }

  lemma AndBit(x: byte, k: nat, j: nat)
    requires k < 8 && j < 8
    ensures (x & !Mask(k)) & Mask(j) == 0 <==> j == k || x & Mask(j) == 0
  {
    MaskOf(k);
    MaskOf(j);
  }

  predicate Bit(b: Block, i: nat)
    requires i < BPB
  {
    b[i / 8] & Mask(i % 8) != 0
  }

  /** data[i/8] |= m */
  function SetBit(b: Block, i: nat): Block
    requires i < BPB
  {
    b[i / 8 := b[i / 8] | Mask(i % 8)]
  }

  /** data[i/8] &= ~m */
  function ClearBit(b: Block, i: nat): Block
    requires i < BPB
  {
    b[i / 8 := b[i / 8] & !Mask(i % 8)]
  }

  lemma SetBitAt(b: Block, i: nat, j: nat)
    requires i < BPB && j < BPB
    ensures Bit(SetBit(b, i), j) <==> j == i || Bit(b, j)
  {
    if i / 8 == j / 8 {
      OrBit(b[i / 8], i % 8, j % 8);
    }
  }

  lemma ClearBitAt(b: Block, i: nat, j: nat)
    requires i < BPB && j < BPB
    ensures Bit(ClearBit(b, i), j) <==> j != i && Bit(b, j)
  {
    if i / 8 == j / 8 {
      AndBit(b[i / 8], i % 8, j % 8);
    }
  }

  // ---- words: ((uint*)data)[j] ------------------------------------------------------------------

  function One(b: bool): nat { if b then 1 else 0 }

  /** The number a byte stands for. */
  function Value(x: byte): (v: nat)
    ensures v < 256
  {
    One(x & 1 != 0) + 2 * One(x & 2 != 0) + 4 * One(x & 4 != 0) + 8 * One(x & 8 != 0) +
    16 * One(x & 16 != 0) + 32 * One(x & 32 != 0) + 64 * One(x & 64 != 0) + 128 * One(x & 128 != 0)
  }

  function At(b: bool, m: byte): byte { if b then m else 0 }

  function FromBits(b0: bool, b1: bool, b2: bool, b3: bool, b4: bool, b5: bool, b6: bool, b7: bool): byte {
    At(b0, 1) | At(b1, 2) | At(b2, 4) | At(b3, 8) | At(b4, 16) | At(b5, 32) | At(b6, 64) | At(b7, 128)
  }

  lemma BitsBack(b0: bool, b1: bool, b2: bool, b3: bool, b4: bool, b5: bool, b6: bool, b7: bool)
    ensures Value(FromBits(b0, b1, b2, b3, b4, b5, b6, b7)) ==
            One(b0) + 2 * One(b1) + 4 * One(b2) + 8 * One(b3) +
            16 * One(b4) + 32 * One(b5) + 64 * One(b6) + 128 * One(b7)
  {
  }

  predicate Odd(v: nat) { v % 2 == 1 }

  function Half(v: nat, i: nat): nat { if i == 0 then v else Half(v, i - 1) / 2 }

  function ToByte(v: nat): byte
    requires v < 256
  {
    FromBits(Odd(Half(v, 0)), Odd(Half(v, 1)), Odd(Half(v, 2)), Odd(Half(v, 3)), Odd(Half(v, 4)), Odd(Half(v, 5)),
        Odd(Half(v, 6)), Odd(Half(v, 7)))
  }

  lemma Binary(v: nat)
    requires v < 256
    ensures v == One(Odd(Half(v, 0))) + 2 * One(Odd(Half(v, 1))) + 4 * One(Odd(Half(v, 2))) + 8 * One(Odd(Half(v, 3))) +
                 16 * One(Odd(Half(v, 4))) + 32 * One(Odd(Half(v, 5))) + 64 * One(Odd(Half(v,
                     6))) + 128 * One(Odd(Half(v, 7)))
  {
    var h := seq(9, i requires 0 <= i => Half(v, i));
    var b := seq(8, i requires 0 <= i < 8 => One(Odd(h[i])));
    forall i | 0 <= i < 8 ensures h[i] == 2 * h[i + 1] + b[i] { Halves(h[i]); }
    Horner(h, b);
  }

  /** Halving eight times and adding the bits up again. */
  lemma Horner(h: seq<nat>, b: seq<nat>)
    requires |h| == 9 && |b| == 8 && h[0] < 256 && forall i :: 0 <= i < 8 ==> h[i] == 2 * h[i + 1] + b[i]
    ensures h[0] == b[0] + 2 * b[1] + 4 * b[2] + 8 * b[3] + 16 * b[4] + 32 * b[5] + 64 * b[6] + 128 * b[7]
  {
    assert h[6] == 2 * (2 * h[8] + b[7]) + b[6];
    assert h[4] == 2 * (2 * h[6] + b[5]) + b[4];
    assert h[2] == 2 * (2 * h[4] + b[3]) + b[2];
    assert h[0] == 2 * (2 * h[2] + b[1]) + b[0];
  }

  lemma Halves(v: nat)
    ensures v == 2 * (v / 2) + One(Odd(v))
  {
  }

  lemma ByteBack(v: nat)
    requires v < 256
    ensures Value(ToByte(v)) == v
  {
    Binary(v);
    BitsBack(Odd(Half(v, 0)), Odd(Half(v, 1)), Odd(Half(v, 2)), Odd(Half(v, 3)), Odd(Half(v, 4)), Odd(Half(v, 5)),
        Odd(Half(v, 6)), Odd(Half(v, 7)));
  }

  function Low(w: nat): byte { ToByte(w % 256) }

  function Word(b: Block, j: nat): (w: nat)
    requires j < NINDIRECT
    ensures w < WORD
  {
    Value(b[4 * j]) + 256 * Value(b[4 * j + 1]) + 65536 * Value(b[4 * j + 2]) + 16777216 * Value(b[4 * j + 3])
  }

  function Put4(b: Block, j: nat, x: seq<byte>): Block
    requires j < NINDIRECT && |x| == 4
  {
    b[4 * j := x[0]][4 * j + 1 := x[1]][4 * j + 2 := x[2]][4 * j + 3 := x[3]]
  }

  lemma Put4At(b: Block, j: nat, x: seq<byte>, k: nat)
    requires j < NINDIRECT && |x| == 4 && k < NINDIRECT
    ensures Word(Put4(b, j, x),
            k) == if k == j then Value(x[0]) + 256 * Value(x[1]) + 65536 * Value(x[2]) + 16777216 * Value(x[3])
                  else Word(b, k)
  {
    var r := Put4(b, j, x);
    if k == j {
      assert r[4 * k] == x[0] && r[4 * k + 1] == x[1] && r[4 * k + 2] == x[2] && r[4 * k + 3] == x[3];
    } else {
      assert r[4 * k] == b[4 * k] && r[4 * k + 1] == b[4 * k + 1] && r[4 * k + 2] == b[4 * k + 2]
             && r[4 * k + 3] == b[4 * k + 3];
    }
  }

  function Bytes4(w: nat): (x: seq<byte>)
    ensures |x| == 4
  {
    [Low(w), Low(w / 256), Low(w / 65536), Low(w / 16777216)]
  }

  lemma LowBack(w: nat)
    ensures Value(Low(w)) == w % 256
  {
    ByteBack(w % 256);
  }

  lemma Split(w: nat)
    requires w < WORD
    ensures w == w % 256 + 256 * (w / 256 % 256) + 65536 * (w / 65536 % 256) + 16777216 * (w / 16777216 % 256)
  {
    assert w / 65536 == w / 256 / 256 && w / 16777216 == w / 65536 / 256;
  }

  lemma Sum4(w: nat, x: seq<byte>)
    requires w < WORD && |x| == 4 && Value(x[0]) == w % 256 && Value(x[1]) == w / 256 % 256
    requires Value(x[2]) == w / 65536 % 256 && Value(x[3]) == w / 16777216 % 256
    ensures Value(x[0]) + 256 * Value(x[1]) + 65536 * Value(x[2]) + 16777216 * Value(x[3]) == w
  {
    Split(w);
  }

  lemma Bytes4Back(w: nat)
    requires w < WORD
    ensures var x := Bytes4(w); Value(x[0]) + 256 * Value(x[1]) + 65536 * Value(x[2]) + 16777216 * Value(x[3]) == w
  {
    LowBack(w);
    LowBack(w / 256);
    LowBack(w / 65536);
    LowBack(w / 16777216);
    Sum4(w, Bytes4(w));
  }

  /** ((uint*)data)[j] = w */
  function PutWord(b: Block, j: nat, w: nat): Block
    requires j < NINDIRECT && w < WORD
  {
    Put4(b, j, Bytes4(w))
  }

  /** Block t is b with w as its j-th word. */
  ghost predicate IsPut(t: Block, b: Block, j: nat, w: nat) {
    forall k: nat {:trigger Word(t, k)} :: k < NINDIRECT ==> Word(t, k) == if k == j then w else Word(b, k)
  }

  /** Reading back gives the word, and no other word changes. */
  lemma PutWordAt(b: Block, j: nat, w: nat, k: nat)
    requires j < NINDIRECT && w < WORD && k < NINDIRECT
    ensures Word(PutWord(b, j, w), k) == if k == j then w else Word(b, k)
  {
    Bytes4Back(w);
    Put4At(b, j, Bytes4(w), k);
  }

  lemma PutWordIs(b: Block, j: nat, w: nat)
    requires j < NINDIRECT && w < WORD
    ensures IsPut(PutWord(b, j, w), b, j, w)
  {
    forall k: nat | k < NINDIRECT ensures Word(PutWord(b, j, w), k) == if k == j then w
          else Word(b, k) { PutWordAt(b, j, w, k); }
  }

  lemma ZeroWord(j: nat)
    requires j < NINDIRECT
    ensures Word(Zeroes(), j) == 0
  {
  }
}
