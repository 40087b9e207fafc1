/** What kernel/fs.c needs of a disk block: it is read and changed as free-map bits, as 32-bit
    block numbers, as dinodes and as file bytes. The file system is proved for any block type T with
    these views; XvFormat is the one of kernel/fs.h. */
module FsFormat {
  import opened Blocks

  const NDIRECT := 12
  const NINDIRECT := 256          // BSIZE / sizeof(uint)
  const MAXFILE := 268            // NDIRECT + NINDIRECT
  const IPB := 16                 // BSIZE / sizeof(struct dinode)

  datatype Inode = Inode(kind: nat, major: nat, minor: nat, nlink: nat, size: nat, addrs: seq<nat>)

  predicate Storable(x: Inode) {
    && x.kind < 0x1_0000 && x.major < 0x1_0000 && x.minor < 0x1_0000 && x.nlink < 0x1_0000 && x.size < UINT_MAX
    && |x.addrs| == NDIRECT + 1 && forall k | 0 <= k < |x.addrs| :: x.addrs[k] < UINT_MAX
  }

  datatype Format<!T, !B> = Format(
    zero: T,
    bit: (T, nat) -> bool, setBit: (T, nat, bool) -> T,
    word: (T, nat) -> nat, setWord: (T, nat, nat) -> T,
    inode: (T, nat) -> Inode, setInode: (T, nat, Inode) -> T,
    bytes: T -> seq<B>, splice: (T, nat, seq<B>) -> T)

  ghost predicate Law<T(!new), B(!new)>(F: Format<T, B>) {
    && (forall b, k: nat, on: bool, j: nat | k < BPB && j < BPB ::
          F.bit(F.setBit(b, k, on), j) == if j == k then on else F.bit(b, j))
    && (forall b, k: nat, x: nat, j: nat | k < NINDIRECT && j < NINDIRECT && x < UINT_MAX ::
          F.word(F.setWord(b, k, x), j) == if j == k then x else F.word(b, j))
    && (forall j: nat | j < NINDIRECT :: F.word(F.zero, j) == 0)
    && (forall b, k: nat, x: Inode, j: nat | k < IPB && j < IPB && Storable(x) ::
          F.inode(F.setInode(b, k, x), j) == if j == k then x else F.inode(b, j))
    && (forall b: T :: |F.bytes(b)| == BSIZE)
    && (forall b: T, o: nat, d: seq<B> | o + |d| <= BSIZE ::
          F.bytes(F.splice(b, o, d)) == F.bytes(b)[..o] + d + F.bytes(b)[o + |d|..])
  }

  // ---- the blocks of xv6 ----

  /** Sixteen words make a dinode. */
  function DinodeWord(x: Inode, j: nat): uint
    requires Storable(x) && j < 16
  {
    if j == 0 then x.kind + 0x1_0000 * x.major
    else if j == 1 then x.minor + 0x1_0000 * x.nlink
    else if j == 2 then x.size
    else x.addrs[j - 3]
  }

  function DinodeOf(w: seq<nat>): Inode
    requires |w| == 16
  {
    Inode(w[0] % 0x1_0000, w[0] / 0x1_0000, w[1] % 0x1_0000, w[1] / 0x1_0000, w[2], w[3..])
  }

  lemma {:induction false} DinodeOfWords(w: seq<nat>, x: Inode)
    requires |w| == 16 && Storable(x) && forall n | 0 <= n < 16 :: w[n] == DinodeWord(x, n)
    ensures DinodeOf(w) == x
  {
    assert w[0] == DinodeWord(x, 0) && w[1] == DinodeWord(x, 1);
    assert w[3..] == x.addrs;
  }

  /** Store words j.. of dinode x at slot k of the block. */
  function PutDinode(b: Block, k: nat, x: Inode, j: nat): Block
    requires k < IPB && j <= 16 && Storable(x)
    decreases 16 - j
  {
    if j == 16 then b else PutDinode(SetWord(b, 16 * k + j, DinodeWord(x, j)), k, x, j + 1)
  }

  lemma {:induction false} PutDinodeWords(b: Block, k: nat, x: Inode, j: nat)
    requires k < IPB && j <= 16 && Storable(x)
    ensures forall n: nat | n < NWORDS ::
      GetWord(PutDinode(b, k, x, j), n) == if 16 * k + j <= n < 16 * k + 16 then DinodeWord(x, n - 16 * k)
        else GetWord(b, n)
    decreases 16 - j
  {
    if j < 16 {
      WordRoundTrip(b, 16 * k + j, DinodeWord(x, j));
      PutDinodeWords(SetWord(b, 16 * k + j, DinodeWord(x, j)), k, x, j + 1);
    }
  }

  function Splice(b: Block, o: nat, d: seq<byte>): Block
    requires o + |d| <= BSIZE
  {
    b[..o] + d + b[o + |d|..]
  }

  function XvBit(b: Block, k: nat): bool { k < BPB && GetBit(b, k) }
  function XvSetBit(b: Block, k: nat, on: bool): Block { if k < BPB then SetBit(b, k, on) else b }
  function XvWord(b: Block, k: nat): nat { if k < NWORDS then GetWord(b, k) else 0 }
  function XvSetWord(b: Block, k: nat, x: nat): Block { if k < NWORDS && x < UINT_MAX then SetWord(b, k, x) else b }
  /** m words from word n on */
  function XvWords(b: Block, n: nat, m: nat): (w: seq<nat>)
    ensures |w| == m && forall j | 0 <= j < m :: w[j] == XvWord(b, n + j)
  {
    if m == 0 then [] else XvWords(b, n, m - 1) + [XvWord(b, n + m - 1)]
  }

  function XvInode(b: Block, k: nat): Inode { DinodeOf(XvWords(b, 16 * k, 16)) }
  function XvSetInode(b: Block, k: nat, x: Inode): Block { if k < IPB && Storable(x) then PutDinode(b, k, x, 0) else b }
  function XvBytes(b: Block): seq<byte> { b }
  function XvSplice(b: Block, o: nat, d: seq<byte>): Block { if o + |d| <= BSIZE then Splice(b, o, d) else b }

  const XvFormat: Format<Block, byte> :=
    Format(Zero, XvBit, XvSetBit, XvWord, XvSetWord, XvInode, XvSetInode, XvBytes, XvSplice)

  lemma {:induction false} DinodeRoundTrip(b: Block, k: nat, x: Inode, j: nat)
    requires k < IPB && j < IPB && Storable(x)
    ensures XvInode(XvSetInode(b, k, x), j) == if j == k then x else XvInode(b, j)
  {
    PutDinodeWords(b, k, x, 0);
    if j == k {
      var c := PutDinode(b, k, x, 0);
      var w := XvWords(c, 16 * k, 16);
      forall n | 0 <= n < 16 ensures w[n] == DinodeWord(x, n) { assert w[n] == XvWord(c, 16 * k + n); }
      DinodeOfWords(w, x);
    } else {
      var v, w := XvWords(b, 16 * j, 16), XvWords(PutDinode(b, k, x, 0), 16 * j, 16);
      forall n | 0 <= n < 16 ensures w[n] == v[n] { assert v[n] == XvWord(b, 16 * j + n); }
    }
  }

  /** The block format of kernel/fs.h meets the laws. */
  lemma {:induction false} XvFormatLaw()
    ensures Law(XvFormat)
  {
    ZeroWords();
    forall b: Block, k: nat, x: nat, j: nat | k < NINDIRECT && j < NINDIRECT && x < UINT_MAX
      ensures XvWord(XvSetWord(b, k, x), j) == if j == k then x else XvWord(b, j)
    {
      WordRoundTrip(b, k, x);
    }
    forall b: Block, k: nat, x: Inode, j: nat | k < IPB && j < IPB && Storable(x)
      ensures XvInode(XvSetInode(b, k, x), j) == if j == k then x else XvInode(b, j)
    {
      DinodeRoundTrip(b, k, x, j);
    }
  }

  // ---- byte by byte ----

  /** The n-byte little-endian number at position p. */
  function Le(b: seq<byte>, p: nat, n: nat): nat
    requires p + n <= |b|
    decreases n
  {
    if n == 0 then 0 else b[p] + 0x100 * Le(b, p + 1, n - 1)
  }

  lemma {:induction false} WordAt(b: Block, i: nat)
    requires i < NWORDS
    ensures GetWord(b, i) == Le(b, 4 * i, 4) == Le(b, 4 * i, 2) + 0x1_0000 * Le(b, 4 * i + 2, 2)
    ensures Le(b, 4 * i, 2) < 0x1_0000 && Le(b, 4 * i + 2, 2) < 0x1_0000
  {
    assert Le(b, 4 * i + 4, 0) == 0 && Le(b, 4 * i + 2, 0) == 0;
    assert Le(b, 4 * i + 3, 1) == b[4 * i + 3] && Le(b, 4 * i + 1, 1) == b[4 * i + 1];
    assert Le(b, 4 * i + 2, 2) == (b[4 * i + 2] as int) + 0x100 * (b[4 * i + 3] as int);
  }

  /** Dinode k of a block, as struct dinode of kernel/fs.h lays it out: type, major, minor and nlink in two bytes each,
      then size and the addresses in four. */
  predicate LaidOut(b: Block, k: nat, x: Inode)
    requires k < IPB && |x.addrs| == NDIRECT + 1
  {
    var p := 64 * k;
    && Le(b, p, 2) == x.kind && Le(b, p + 2, 2) == x.major && Le(b, p + 4, 2) == x.minor && Le(b, p + 6, 2) == x.nlink
    && Le(b, p + 8, 4) == x.size && forall j | 0 <= j <= NDIRECT :: Le(b, p + 12 + 4 * j, 4) == x.addrs[j]
  }

  lemma {:induction false} Halves(a: nat, b: nat, x: nat, y: nat)
    requires a + 0x1_0000 * b == x + 0x1_0000 * y && a < 0x1_0000 && x < 0x1_0000
    ensures a == x && b == y
  {
  }

  /** Reading and writing dinodes agree with that layout. */
  lemma {:induction false} DinodeLayout(b: Block, k: nat, x: Inode)
    requires k < IPB && |x.addrs| == NDIRECT + 1
    ensures LaidOut(b, k, XvInode(b, k))
    ensures Storable(x) ==> LaidOut(XvSetInode(b, k, x), k, x)
  {
    hide Le, GetWord;
    InodeLaidOut(b, k);
    if Storable(x) {
      DinodeRoundTrip(b, k, x, k);
      InodeLaidOut(XvSetInode(b, k, x), k);
    }
  }

  lemma {:induction false} InodeLaidOut(b: Block, k: nat)
    requires k < IPB
    ensures LaidOut(b, k, XvInode(b, k))
  {
    hide Le, GetWord;
    var x, w, p := XvInode(b, k), XvWords(b, 16 * k, 16), 64 * k;
    forall n | 0 <= n < 16 ensures w[n] == Le(b, p + 4 * n, 4) {
      assert w[n] == XvWord(b, 16 * k + n);
      WordAt(b, 16 * k + n);
    }
    WordAt(b, 16 * k);
    WordAt(b, 16 * k + 1);
    Halves(Le(b, p, 2), Le(b, p + 2, 2), x.kind, x.major);
    Halves(Le(b, p + 4, 2), Le(b, p + 6, 2), x.minor, x.nlink);
    forall j | 0 <= j <= NDIRECT ensures Le(b, p + 12 + 4 * j, 4) == x.addrs[j] { assert x.addrs[j] == w[3 + j]; }
  }

  /** x & (1 << j) */
  predicate ByteBit(x: nat, j: nat)
    requires j < 8
  {
    match j
    case 0 => x % 2 == 1
    case 1 => x / 2 % 2 == 1
    case 2 => x / 4 % 2 == 1
    case 3 => x / 8 % 2 == 1
    case 4 => x / 16 % 2 == 1
    case 5 => x / 32 % 2 == 1
    case 6 => x / 64 % 2 == 1
    case _ => x / 128 % 2 == 1
  }

  lemma {:induction false} ByteBits(x: nat, j: nat)
    requires j < 8
    ensures Bit(x, j) <==> ByteBit(x, j)
    decreases j
  {
    if j > 0 { ByteBits(x / 2, j - 1); }
  }

  /** Bit k of a free-map block is bit k % 8 of byte k / 8; word k of an indirect block is four bytes. */
  lemma {:induction false} BitsAndWords(b: Block, k: nat)
    ensures k < BPB ==> (XvBit(b, k) <==> ByteBit(b[k / 8], k % 8))
    ensures k < NINDIRECT ==> XvWord(b, k) == Le(b, 4 * k, 4)
  {
    if k < BPB { ByteBits(b[k / 8], k % 8); }
    if k < NINDIRECT { WordAt(b, k); }
  }
}
