/** Disk blocks as the kernel sees them: BSIZE bytes, read either as bytes, as
    little-endian 32-bit words (log header, indirect blocks, dinodes) or as bits
    (free map). */
module Blocks {
  const BSIZE := 1024
  const NWORDS := 256  // BSIZE / sizeof(uint)
  const BPB := 8192    // bits per free-map block
  const UINT_MAX := 0x1_0000_0000

  type byte = x: int | 0 <= x < 256
  type uint = x: int | 0 <= x < UINT_MAX
  type Block = b: seq<byte> | |b| == BSIZE witness seq(BSIZE, _ => 0)

  const Zero: Block := seq(BSIZE, _ => 0)

  function GetWord(b: Block, i: nat): uint
    requires i < NWORDS
  {
    b[4 * i] as int + 0x100 * (b[4 * i + 1] as int)
    + 0x1_0000 * (b[4 * i + 2] as int) + 0x100_0000 * (b[4 * i + 3] as int)
  }

  function SetWord(b: Block, i: nat, x: uint): Block
    requires i < NWORDS
  {
    b[4 * i := x % 0x100][4 * i + 1 := (x / 0x100) % 0x100]
    [4 * i + 2 := (x / 0x1_0000) % 0x100][4 * i + 3 := x / 0x100_0000]
  }

  /** Storing a word and loading words back: the stored word is recovered and
      every other word is unchanged. */
  lemma {:induction false} WordRoundTrip(b: Block, i: nat, x: uint)
    requires i < NWORDS
    ensures forall j: nat | j < NWORDS ::
              GetWord(SetWord(b, i, x), j) == if j == i then x else GetWord(b, j)
  {
    hide GetWord, SetWord;
    forall j: nat | j < NWORDS ensures GetWord(SetWord(b, i, x), j) == if j == i then x else GetWord(b, j) {
      if j == i { WordStored(b, i, x); } else { WordKept(b, i, x, j); }
    }
  }

  lemma {:induction false} WordBytes(x: uint)
    ensures x == x % 0x100 + 0x100 * (x / 0x100 % 0x100) + 0x1_0000 * (x / 0x1_0000 % 0x100) +
        0x100_0000 * (x / 0x100_0000)
  {
  }

  lemma {:induction false} WordStored(b: Block, i: nat, x: uint)
    requires i < NWORDS
    ensures GetWord(SetWord(b, i, x), i) == x
  {
    var c := SetWord(b, i, x);
    assert c[4 * i] == x % 0x100 && c[4 * i + 1] == (x / 0x100) % 0x100;
    assert c[4 * i + 2] == (x / 0x1_0000) % 0x100 && c[4 * i + 3] == x / 0x100_0000;
    WordBytes(x);
  }

  lemma {:induction false} WordKept(b: Block, i: nat, x: uint, j: nat)
    requires i < NWORDS && j < NWORDS && i != j
    ensures GetWord(SetWord(b, i, x), j) == GetWord(b, j)
  {
  }

  lemma {:induction false} ZeroWords()
    ensures forall j: nat | j < NWORDS :: GetWord(Zero, j) == 0
  {
  }

  /** Bit k of x, that is `x & (1 << k)` */
  predicate Bit(x: nat, k: nat) {
    if k == 0 then x % 2 == 1 else Bit(x / 2, k - 1)
  }

  /** `x |= 1 << k` when on, `x &= ~(1 << k)` otherwise */
  function PutBit(x: nat, k: nat, on: bool): (y: nat)
    ensures forall j: nat :: Bit(y, j) == if j == k then on else Bit(x, j)
    ensures x < 256 && k < 8 ==> y < 256
  {
    BelowPow(x, k, on, 8);
    PutBitAt(x, k, on);
    PutBitRec(x, k, on)
  }

  function PutBitRec(x: nat, k: nat, on: bool): nat {
    if k == 0 then x / 2 * 2 + (if on then 1 else 0) else PutBitRec(x / 2, k - 1, on) * 2 + x % 2
  }

  function Pow2(n: nat): nat { if n == 0 then 1 else 2 * Pow2(n - 1) }

  lemma {:induction false} BelowPow(x: nat, k: nat, on: bool, n: nat)
    ensures x < Pow2(n) && k < n ==> PutBitRec(x, k, on) < Pow2(n)
    ensures Pow2(8) == 256
    decreases k
  {
    if k > 0 && n > 0 { BelowPow(x / 2, k - 1, on, n - 1); }
    assert Pow2(4) == 16 && Pow2(8) == 16 * Pow2(4);
  }

  lemma {:induction false} PutBitAt(x: nat, k: nat, on: bool)
    ensures forall j: nat :: Bit(PutBitRec(x, k, on), j) == if j == k then on else Bit(x, j)
    decreases k
  {
    if k > 0 { PutBitAt(x / 2, k - 1, on); }
    forall j: nat ensures Bit(PutBitRec(x, k, on), j) == if j == k then on else Bit(x, j) {
      assert PutBitRec(x, k, on) / 2 == if k == 0 then x / 2 else PutBitRec(x / 2, k - 1, on);
    }
  }

  /** Bit k of a free-map block, `data[k/8] & (1 << k%8)` */
  predicate GetBit(b: Block, k: nat)
    requires k < BPB
  {
    Bit(b[k / 8], k % 8)
  }

  function SetBit(b: Block, k: nat, on: bool): (c: Block)
    requires k < BPB
    ensures forall j: nat | j < BPB :: GetBit(c, j) == if j == k then on else GetBit(b, j)
  {
    var c := b[k / 8 := PutBit(b[k / 8], k % 8, on)];
    assert forall j: nat | j < BPB && j / 8 == k / 8 :: j == k <==> j % 8 == k % 8;
    c
  }
}
