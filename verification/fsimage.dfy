/** A disk laid out as mkfs/mkfs.c does (boot block, superblock, log, inodes, free map, data) on
    which one filewrite chunk needs the whole MAXOPBLOCKS of its transaction. Every file has twelve
    direct blocks and a size one byte into the last; the free blocks are the multiples of BPB. */
module FsImage {
  import opened Blocks
  import opened FsFormat
  import opened FsSpec
  import opened FsLocal
  import opened FsCode
  import RedoLog
  import Crash
  import LogHeader
  import Log = GroupCommit
  import FsCrash

  const NINODES := 3393
  const DATASTART := 251          // 2 + 30 log blocks + 213 inode blocks + 6 free-map blocks
  const SIZE := 40972
  const OFF := 11 * BSIZE + 1

  const Sb := Super(SIZE, NINODES, 32, 245, DATASTART)

  predicate IsFree(b: nat) { DATASTART <= b && b % BPB == 0 }

  /** The i-th data block that is not free. */
  function Nth(i: nat): nat { i + DATASTART + (i + DATASTART - 1) / (BPB - 1) }

  /** Its inverse. */
  function Rank(b: nat): int { b - DATASTART - b / BPB }

  lemma {:induction false} RankNth(i: nat)
    requires i < NDIRECT * NINODES
    ensures DATASTART <= Nth(i) < SIZE && !IsFree(Nth(i)) && Rank(Nth(i)) == i
  {
    var x := i + DATASTART;
    var q, r := (x - 1) / (BPB - 1), (x - 1) % (BPB - 1);
    assert Nth(i) == BPB * q + r + 1;
  }

  lemma {:induction false} NthRank(b: nat)
    requires DATASTART <= b < SIZE && !IsFree(b)
    ensures 0 <= Rank(b) < NDIRECT * NINODES && Nth(Rank(b)) == b
  {
    var q, r := b / BPB, b % BPB;
    assert b - q - 1 == (BPB - 1) * q + r - 1;
  }

  function Addr(m: nat, k: nat): nat { if k < NDIRECT then Nth(NDIRECT * m + k) else 0 }
  function Addrs(m: nat): seq<nat> { seq(NDIRECT + 1, k requires 0 <= k <= NDIRECT => Addr(m, k)) }

  function File(m: nat): Inode { Inode(2, 0, 0, 1, OFF, Addrs(m)) }

  /** The free-map block for blocks BPB * j up to BPB * (j + 1), the first n bits of it. */
  function MapUpTo<T, B>(F: Format<T, B>, j: nat, n: nat): T {
    if n == 0 then F.zero else F.setBit(MapUpTo(F, j, n - 1), n - 1, !IsFree(BPB * j + n - 1))
  }

  /** Inode block j, the first n of its inodes. */
  function InodesUpTo<T, B>(F: Format<T, B>, j: nat, n: nat): T {
    if n == 0 then F.zero else F.setInode(InodesUpTo(F, j, n - 1), n - 1, File(IPB * j + n - 1))
  }

  function BlockOf<T, B>(F: Format<T, B>, b: nat): T {
    if Sb.inodestart <= b < Sb.bmapstart then InodesUpTo(F, b - Sb.inodestart, IPB)
    else if Sb.bmapstart <= b < DATASTART then MapUpTo(F, b - Sb.bmapstart, BPB)
    else F.zero
  }

  function Image0<T, B>(F: Format<T, B>): seq<T> { seq(SIZE, b requires 0 <= b < SIZE => BlockOf(F, b)) }
  const Inodes0: seq<Inode> := seq(NINODES, m requires 0 <= m < NINODES => File(m))
  ghost const Owner0: map<nat, Slot> := map b: nat | DATASTART <= b < SIZE && !IsFree(b) ::
    Top(Rank(b) / NDIRECT, Rank(b) % NDIRECT)
  function Data0<T, B>(F: Format<T, B>): seq<B>
    requires |F.bytes(F.zero)| == BSIZE
  {
    seq(OFF, x requires 0 <= x < OFF => F.bytes(F.zero)[x % BSIZE])
  }
  function Files0<T, B>(F: Format<T, B>): seq<seq<B>>
    requires |F.bytes(F.zero)| == BSIZE
  {
    seq(NINODES, _ => Data0(F))
  }

  lemma {:induction false} MapBits<T(!new), B(!new)>(F: Format<T, B>, j: nat, n: nat, k: nat)
    requires Law(F) && k < n <= BPB
    ensures F.bit(MapUpTo(F, j, n), k) == !IsFree(BPB * j + k)
    decreases n
  {
    if k < n - 1 { MapBits(F, j, n - 1, k); }
  }

  lemma {:induction false} FileStorable(m: nat)
    requires m < IPB * (Sb.bmapstart - Sb.inodestart)
    ensures Storable(File(m))
  {
    forall k | 0 <= k <= NDIRECT ensures Addrs(m)[k] < UINT_MAX {
      assert Addrs(m)[k] == Addr(m, k) <= 2 * (NDIRECT * m + k + DATASTART);
    }
  }

  lemma {:induction false} InodeSlots<T(!new), B(!new)>(F: Format<T, B>, j: nat, n: nat, k: nat)
    requires Law(F) && k < n <= IPB && j < Sb.bmapstart - Sb.inodestart
    ensures F.inode(InodesUpTo(F, j, n), k) == File(IPB * j + k)
    decreases n
  {
    FileStorable(IPB * j + n - 1);
    if k < n - 1 { InodeSlots(F, j, n - 1, k); }
  }

  lemma {:induction false} UsedBit<T(!new), B(!new)>(F: Format<T, B>, x: nat)
    requires Law(F) && x < SIZE
    ensures Used(F, Sb, Image0(F), x) == !IsFree(x)
  {
    MapBits(F, x / BPB, BPB, x % BPB);
    assert BPB * (x / BPB) + x % BPB == x;
  }

  lemma {:induction false} SlotHolds<T(!new), B(!new)>(F: Format<T, B>, s: Slot)
    requires IsSlot(Sb, s)
    ensures Ptr(F, Image0(F), Inodes0, s) == if s.Top? && s.k < NDIRECT then Nth(NDIRECT * s.i + s.k) else 0
  {
  }

  lemma {:induction false} OwnedImage<T(!new), B(!new)>(F: Format<T, B>)
    requires Law(F)
    ensures Owned(F, Sb, Image0(F), Inodes0, Owner0, 0, 0)
  {
    hide Law, Used, Ptr, IsFree, Rank, Nth;
    assert Shape(Sb, Image0(F), Inodes0);
    forall s | IsSlot(Sb, s) && Ptr(F, Image0(F), Inodes0, s) != 0
      ensures Ptr(F, Image0(F), Inodes0, s) in Owner0 && Owner0[Ptr(F, Image0(F), Inodes0, s)] == s
    {
      SlotHolds(F, s);
      RankNth(NDIRECT * s.i + s.k);
    }
    forall b | b in Owner0 ensures IsSlot(Sb, Owner0[b]) && Ptr(F, Image0(F), Inodes0, Owner0[b]) == b {
      NthRank(b);
      SlotHolds(F, Owner0[b]);
    }
    forall b: nat | b < SIZE ensures Used(F, Sb, Image0(F), b) <==> b < DATASTART || b in Owner0 {
      UsedBit(F, b);
      FreeData(b);
    }
  }

  lemma {:induction false} FreeData(b: nat)
    ensures IsFree(b) ==> DATASTART <= b
  {
  }

  lemma {:induction false} ZeroSize<T(!new), B(!new)>(F: Format<T, B>)
    requires Law(F)
    ensures |F.bytes(F.zero)| == BSIZE
  {
  }

  lemma {:induction false} FileImage<T(!new), B(!new)>(F: Format<T, B>, m: nat)
    requires Law(F) && m < NINODES
    ensures FileOk(F, Image0(F), File(m), Data0(F))
  {
    hide Nth, Rank, IsFree, Law;
    assert |F.bytes(F.zero)| == BSIZE by { ZeroSize(F); }
    forall bn: nat | bn * BSIZE < OFF
      ensures DATASTART <= FilePtr(F, Image0(F), File(m), bn) < SIZE
      ensures Chunk(F, Image0(F), File(m), bn) == F.bytes(F.zero)
    {
      RankNth(NDIRECT * m + bn);
    }
  }

  lemma {:induction false} SyncedImage<T(!new), B(!new)>(F: Format<T, B>, m: nat)
    requires Law(F) && m < NINODES
    ensures Synced(F, Sb, Image0(F), Inodes0, m)
  {
    InodeSlots(F, m / IPB, IPB, m % IPB);
    assert IPB * (m / IPB) + m % IPB == m;
  }

  /** It is a consistent file system. */
  lemma {:induction false} ImageValid<T(!new), B(!new)>(F: Format<T, B>)
    requires Law(F)
    ensures |F.bytes(F.zero)| == BSIZE && ValidAt(F, Sb, Image0(F), Inodes0, Owner0, Files0(F))
  {
    hide Owned, FileOk, Synced;
    OwnedImage(F);
    forall m: nat | m < NINODES ensures FileOk(F, Image0(F), Inodes0[m], Files0(F)[m]) { FileImage(F, m); }
    forall m: nat | m < NINODES ensures Synced(F, Sb, Image0(F), Inodes0, m) { SyncedImage(F, m); }
  }

  /** Appending a chunk to file 0 is a worst case. */
  lemma {:induction false} ImageWorst<T(!new), B(!new)>(F: Format<T, B>)
    requires Law(F)
    ensures Shape(Sb, Image0(F), Inodes0) && Worst(F, Sb, Image0(F), Inodes0, 0, OFF, CHUNK)
  {
    hide Law, Used;
    forall x: nat, y: nat | x < y < SIZE && !Used(F, Sb, Image0(F), x) && !Used(F, Sb, Image0(F), y)
      ensures MapBlock(Sb, x) != MapBlock(Sb, y)
    {
      UsedBit(F, x);
      UsedBit(F, y);
    }
  }

  /** The five free blocks of the image. */
  lemma {:induction false} FiveFree<T(!new), B(!new)>(F: Format<T, B>, q: nat)
    requires Law(F) && 1 <= q <= 5
    ensures DATASTART <= BPB * q < SIZE && !Used(F, Sb, Image0(F), BPB * q) && MapBlock(Sb, BPB * q) == Sb.bmapstart + q
  {
    UsedBit(F, BPB * q);
  }

  lemma {:induction false} Taken<T(!new), B(!new)>(F: Format<T, B>, disk: seq<T>, inodes: seq<Inode>,
                                                   owner: map<nat, Slot>, logged: set<nat>, q: nat)
    requires Law(F) && Owned(F, Sb, disk, inodes, owner, 0, 0) && Accounted(Sb, Owner0, {}, owner, logged)
    requires 1 <= q <= 5
    requires forall x: nat | x < SIZE :: Used(F, Sb, disk, x)
    ensures BPB * q in logged && Sb.bmapstart + q in logged
  {
    hide Law, Used;
    FiveFree(F, q);
    assert BPB * q in owner && BPB * q !in Owner0;
  }

  lemma {:induction false} FiveCard(a: nat, b: nat, c: nat, d: nat, e: nat)
    requires a < b < c < d < e
    ensures |{a, b, c, d, e}| == 5
  {
    FourCard(a, b, c, d);
    assert {a, b, c, d, e} == {a, b, c, d} + {e};
  }

  /** If all five were taken, more than MAXOPBLOCKS blocks would have been logged. */
  lemma {:induction false} NotFilled<T(!new), B(!new)>(F: Format<T, B>, disk: seq<T>, inodes: seq<Inode>,
                                                       owner: map<nat, Slot>, logged: set<nat>)
    requires Law(F) && Owned(F, Sb, disk, inodes, owner, 0, 0) && Accounted(Sb, Owner0, {}, owner, logged)
    requires InodeBlock(Sb, 0) in logged && forall x: nat | x < SIZE :: Used(F, Sb, disk, x)
    ensures |logged| > RedoLog.MAXOPBLOCKS
  {
    hide Law, Used, Owned, Accounted;
    var maps, y := {246, 247, 248, 249, 250}, InodeBlock(Sb, 0);
    var data := {BPB * 1, BPB * 2, BPB * 3, BPB * 4, BPB * 5};
    Taken(F, disk, inodes, owner, logged, 1);
    Taken(F, disk, inodes, owner, logged, 2);
    Taken(F, disk, inodes, owner, logged, 3);
    Taken(F, disk, inodes, owner, logged, 4);
    Taken(F, disk, inodes, owner, logged, 5);
    FiveCard(BPB * 1, BPB * 2, BPB * 3, BPB * 4, BPB * 5);
    FiveCard(246, 247, 248, 249, 250);
    DisjointCard(data, maps, {y});
    SubsetCard(data + maps + {y}, logged);
  }

  /** filewrite's bound is reached: this write logs exactly MAXOPBLOCKS different blocks. */
  method WorstWrite<T(!new), B(!new)>(F: Format<T, B>, src: seq<B>) returns (r: int, ghost logged: set<nat>)
    requires Law(F) && |src| == CHUNK
    ensures r == CHUNK && |logged| == RedoLog.MAXOPBLOCKS
  {
    hide Law, Owned, FileOk, Used, Worst, Accounted, Solo, Thrifty, Overwrite, Traced, LocalTrace, Theirs;
    ImageValid(F);
    ImageWorst(F);
    var fs := new FileSystem(F, Sb, Image0(F), Inodes0, Owner0, Files0(F));
    ghost var touched;
    r, touched := fs.WriteI(0, OFF, src, (_, _) => true);
    logged := fs.logged;
    SubsetCard(logged, touched);
    if r < CHUNK { NotFilled(F, fs.disk, fs.inodes, fs.owner, logged); }
  }

  /** With the kernel's own block formats, this image is an initial state of file system and log. */
  lemma {:induction false} ImageStarts() returns (D: FsCrash.Disk<Block, byte>, s: FsCrash.State<Block, byte>)
    ensures D.C == LogHeader.XvCodec && D.F == XvFormat && D.sb == Sb && D.L == RedoLog.Layout(2, RedoLog.LOGSIZE, SIZE)
    ensures FsCrash.Init(D, s) && s.log.disk == Image0(XvFormat)
  {
    hide Law, ValidAt, LogHeader.Head, LogHeader.PutHead, Parts;
    XvFormatLaw();
    LogHeader.XvCodecLaw();
    ImageValid(XvFormat);
    var d := Image0(XvFormat);
    assert LogHeader.XvCodec.head(d[2]) == [] by { EmptyHeader(); }
    D := FsCrash.Disk(RedoLog.Layout(2, RedoLog.LOGSIZE, SIZE), LogHeader.XvCodec, XvFormat, Sb, Files0(XvFormat));
    ImageSplit(XvFormat, Sb, d, Inodes0, Owner0, Files0(XvFormat));
    var own := Split(Sb, Owner0);
    s := FsCrash.State(Log.State(d, d, [], 0, false, [], Log.Idle, Log.NoFault, d, [], [], [], 0, 0), own, map[], [],
      0, own);
  }

  lemma {:induction false} EmptyHeader()
    ensures LogHeader.Head(Zero) == []
  {
    ZeroWords();
  }
}
