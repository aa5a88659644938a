/**
  Disk blocks as byte sequences, and the two ways the kernel looks inside one:
  as an array of little-endian 32-bit words (log header, inodes, indirect blocks)
  and as an array of bits (the free bitmap).
 */
module Blocks {

  type byte = x: int | 0 <= x < 256
  type word = x: int | 0 <= x < 0x1_0000_0000

  const BSIZE: int := 512
  const WORDS: int := BSIZE / 4
  const BPB: int := BSIZE * 8

  type Block = b: seq<byte> | |b| == BSIZE witness Zero()

  /** memset(data, 0, BSIZE) */
  function Zero(): (b: seq<byte>)
    ensures |b| == BSIZE
  {
    seq(BSIZE, _ => 0)
  }

  // ------------------------------------------------------------------- words

  function GetWord(b: Block, k: nat): word
    requires k < WORDS
  {
    var b0: int, b1: int, b2: int, b3: int := b[4 * k], b[4 * k + 1], b[4 * k + 2], b[4 * k + 3];
    b0 + 256 * b1 + 65536 * b2 + 16777216 * b3
  }

  function SetWord(b: Block, k: nat, v: word): Block
    requires k < WORDS
  {
    b[4 * k := v % 256][4 * k + 1 := v / 256 % 256][4 * k + 2 := v / 65536 % 256][4 * k + 3 := v / 16777216]
  }

  lemma SplitWord(v: word)
    ensures v == v % 256 + 256 * (v / 256 % 256) + 65536 * (v / 65536 % 256) + 16777216 * (v / 16777216)
  {
    assert v / 65536 == v / 256 / 256;
    assert v / 16777216 == v / 65536 / 256;
  }

  /** A stored word reads back, and every other word is as before. */
  lemma WordAfterSet(b: Block, k: nat, v: word, j: nat)
    requires k < WORDS && j < WORDS
    ensures GetWord(SetWord(b, k, v), j) == if j == k then v else GetWord(b, j)
  {
    SplitWord(v);
  }

  lemma ZeroWords(k: nat)
    requires k < WORDS
    ensures GetWord(Zero(), k) == 0
  {
  }

  // -------------------------------------------------------------------- bits

  /** 1 << i */
  function Mask(i: nat): (m: nat)
    ensures m > 0
  {
    if i == 0 then 1 else 2 * Mask(i - 1)
  }

  /** (x & (1 << i)) != 0 */
  predicate Bit(x: nat, i: nat) {
    if i == 0 then x % 2 == 1 else Bit(x / 2, i - 1)
  }

  /** (data[bi/8] & m) != 0 */
  predicate GetBit(b: Block, bi: nat)
    requires bi < BPB
  {
    Bit(b[bi / 8], bi % 8)
  }

  /** data[bi/8] |= m, for a bit that is clear */
  function SetBit(b: Block, bi: nat): Block
    requires bi < BPB && !GetBit(b, bi)
  {
    MaskRoom(b[bi / 8], bi % 8, 8);
    b[bi / 8 := b[bi / 8] + Mask(bi % 8)]
  }

  /** data[bi/8] &= ~m, for a bit that is set */
  function ClearBit(b: Block, bi: nat): Block
    requires bi < BPB && GetBit(b, bi)
  {
    MaskRoom(b[bi / 8], bi % 8, 8);
    b[bi / 8 := b[bi / 8] - Mask(bi % 8)]
  }

  /** In a number of n bits there is room to set a clear bit, and a set bit can be taken away. */
  lemma {:induction false} MaskRoom(x: nat, i: nat, n: nat)
    requires i < n && x < Mask(n)
    ensures !Bit(x, i) ==> x + Mask(i) < Mask(n)
    ensures Bit(x, i) ==> x >= Mask(i)
  {
    if i > 0 {
      MaskRoom(x / 2, i - 1, n - 1);
    }
  }

  /** Adding a clear bit's mask sets that bit and no other. */
  lemma {:induction false} BitsAfterAdd(x: nat, i: nat, j: nat)
    requires !Bit(x, i)
    ensures Bit(x + Mask(i), j) <==> j == i || Bit(x, j)
  {
    if i == 0 {
      assert (x + 1) / 2 == x / 2;
    } else {
      assert (x + Mask(i)) / 2 == x / 2 + Mask(i - 1);
      if j > 0 {
        BitsAfterAdd(x / 2, i - 1, j - 1);
      }
    }
  }

  /** Subtracting a set bit's mask clears that bit and no other. */
  lemma {:induction false} BitsAfterSubtract(x: nat, i: nat, j: nat)
    requires Bit(x, i) && x >= Mask(i)
    ensures Bit(x - Mask(i), j) <==> j != i && Bit(x, j)
  {
    if i == 0 {
      assert (x - 1) / 2 == x / 2;
    } else {
      assert (x - Mask(i)) / 2 == x / 2 - Mask(i - 1);
      if j > 0 {
        BitsAfterSubtract(x / 2, i - 1, j - 1);
      }
    }
  }

  lemma BitAfterSet(b: Block, bi: nat, bj: nat)
    requires bi < BPB && bj < BPB && !GetBit(b, bi)
    ensures GetBit(SetBit(b, bi), bj) <==> bj == bi || GetBit(b, bj)
  {
    MaskRoom(b[bi / 8], bi % 8, 8);
    BitsAfterAdd(b[bi / 8], bi % 8, bj % 8);
  }

  lemma BitAfterClear(b: Block, bi: nat, bj: nat)
    requires bi < BPB && bj < BPB && GetBit(b, bi)
    ensures GetBit(ClearBit(b, bi), bj) <==> bj != bi && GetBit(b, bj)
  {
    MaskRoom(b[bi / 8], bi % 8, 8);
    BitsAfterSubtract(b[bi / 8], bi % 8, bj % 8);
  }
}
