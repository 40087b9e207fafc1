/** The file system of kernel/fs.c: which block belongs to what, and what each file holds.
    `owner` names, for every allocated data block, the one place that points to it. */
module FsSpec {
  import opened Blocks
  import opened FsFormat
  import RedoLog

  /** Blocks [inodestart, bmapstart) hold dinodes, [bmapstart, datastart) the free map, the rest data. */
  datatype Super = Super(size: nat, ninodes: nat, inodestart: nat, bmapstart: nat, datastart: nat)

  predicate SuperOk(sb: Super) {
    && 0 < sb.inodestart <= sb.bmapstart <= sb.datastart <= sb.size < UINT_MAX
    && sb.ninodes <= IPB * (sb.bmapstart - sb.inodestart) && sb.size <= BPB * (sb.datastart - sb.bmapstart)
  }

  /** A place that can hold a block number: addrs[k] of an inode, or word j of its indirect block. */
  datatype Slot = Top(i: nat, k: nat) | Leaf(i: nat, j: nat)

  predicate IsSlot(sb: Super, s: Slot) {
    s.i < sb.ninodes && if s.Top? then s.k <= NDIRECT else s.j < NINDIRECT
  }

  predicate Shape<T>(sb: Super, disk: seq<T>, inodes: seq<Inode>) {
    && SuperOk(sb) && |disk| == sb.size && |inodes| == sb.ninodes
    && forall i | 0 <= i < |inodes| :: |inodes[i].addrs| == NDIRECT + 1
  }

  /** Word j of the indirect block a, if there is one. */
  function LeafPtr<T, B>(F: Format<T, B>, disk: seq<T>, a: nat, j: nat): nat {
    if a == 0 || a >= |disk| then 0 else F.word(disk[a], j)
  }

  function Ptr<T, B>(F: Format<T, B>, disk: seq<T>, inodes: seq<Inode>, s: Slot): nat
    requires s.i < |inodes| && |inodes[s.i].addrs| == NDIRECT + 1 && (s.Top? ==> s.k <= NDIRECT)
  {
    if s.Top? then inodes[s.i].addrs[s.k] else LeafPtr(F, disk, inodes[s.i].addrs[NDIRECT], s.j)
  }

  /** The place for block bn of file i. */
  function SlotOf(i: nat, bn: nat): Slot { if bn < NDIRECT then Top(i, bn) else Leaf(i, bn - NDIRECT) }

  /** Block number of block bn of a file. */
  function FilePtr<T, B>(F: Format<T, B>, disk: seq<T>, ino: Inode, bn: nat): nat
    requires |ino.addrs| == NDIRECT + 1
  {
    if bn < NDIRECT then ino.addrs[bn] else LeafPtr(F, disk, ino.addrs[NDIRECT], bn - NDIRECT)
  }

  /** The free-map bit of block b. */
  predicate Used<T, B>(F: Format<T, B>, sb: Super, disk: seq<T>, b: nat)
    requires SuperOk(sb) && |disk| == sb.size && b < sb.size
  {
    F.bit(disk[sb.bmapstart + b / BPB], b % BPB)
  }

  predicate Exempt(s: Slot, i0: nat, n: nat) { s.Leaf? && s.i == i0 && s.j < n }

  /** Every block number stored in a slot is owned by that slot alone, and the map marks exactly the
      owned blocks and the metadata. Slots Leaf(i0, j) with j < n are let off: itrunc leaves them. */
  ghost predicate Owned<T, B>(F: Format<T, B>, sb: Super, disk: seq<T>, inodes: seq<Inode>, owner: map<nat, Slot>,
                              i0: nat, n: nat) {
    && Shape(sb, disk, inodes)
    && (forall s | IsSlot(sb, s) && Ptr(F, disk, inodes, s) != 0 && !Exempt(s, i0, n) ::
          Ptr(F, disk, inodes, s) in owner && owner[Ptr(F, disk, inodes, s)] == s)
    && (forall b | b in owner ::
          sb.datastart <= b < sb.size && IsSlot(sb, owner[b]) && Ptr(F, disk, inodes, owner[b]) == b)
    && (forall b: nat | b < sb.size :: Used(F, sb, disk, b) <==> b < sb.datastart || b in owner)
  }

  /** The bytes of block bn of a file. */
  function Chunk<T, B>(F: Format<T, B>, disk: seq<T>, ino: Inode, bn: nat): seq<B>
    requires |ino.addrs| == NDIRECT + 1
  {
    if FilePtr(F, disk, ino, bn) < |disk| then F.bytes(disk[FilePtr(F, disk, ino, bn)]) else []
  }

  /** Inode ino holds the file data: no holes below its size, and the blocks' bytes in order. */
  ghost predicate FileOk<T, B>(F: Format<T, B>, disk: seq<T>, ino: Inode, data: seq<B>) {
    && |ino.addrs| == NDIRECT + 1 && ino.size == |data| <= MAXFILE * BSIZE
    && (forall bn: nat | bn * BSIZE < |data| ::
          0 < FilePtr(F, disk, ino, bn) < |disk| && |Chunk(F, disk, ino, bn)| == BSIZE)
    && (forall bn: nat, o: nat | o < BSIZE && bn * BSIZE + o < |data| ::
          Chunk(F, disk, ino, bn)[o] == data[bn * BSIZE + o])
  }

  /** Whether dinode i on disk equals the in-memory inode. */
  predicate Synced<T, B>(F: Format<T, B>, sb: Super, disk: seq<T>, inodes: seq<Inode>, i: nat)
    requires SuperOk(sb) && |disk| == sb.size && |inodes| == sb.ninodes && i < |inodes|
  {
    F.inode(disk[sb.inodestart + i / IPB], i % IPB) == inodes[i]
  }

  // ---- the free map ----

  function MapBlock(sb: Super, b: nat): nat { sb.bmapstart + b / BPB }

  /** The disk after marking block b in the free map. */
  function Marked<T, B>(F: Format<T, B>, sb: Super, disk: seq<T>, b: nat, on: bool): seq<T>
    requires SuperOk(sb) && |disk| == sb.size && b < sb.size
  {
    disk[MapBlock(sb, b) := F.setBit(disk[MapBlock(sb, b)], b % BPB, on)]
  }

  lemma {:induction false} MarkedBits<T(!new), B(!new)>(F: Format<T, B>, sb: Super, disk: seq<T>, b: nat, on: bool)
    requires Law(F) && SuperOk(sb) && |disk| == sb.size && b < sb.size
    ensures sb.bmapstart <= MapBlock(sb, b) < sb.datastart
    ensures forall x: nat | x < sb.size ::
              Used(F, sb, Marked(F, sb, disk, b, on), x) == if x == b then on else Used(F, sb, disk, x)
  {
    var disk' := Marked(F, sb, disk, b, on);
    forall x: nat | x < sb.size ensures Used(F, sb, disk', x) == if x == b then on else Used(F, sb, disk, x) {
      if x / BPB == b / BPB { assert x == b <==> x % BPB == b % BPB; }
    }
  }

  // ---- changes to the tree ----

  /** The disk after balloc returned b: marked and zeroed. */
  function Allocated<T, B>(F: Format<T, B>, sb: Super, disk: seq<T>, b: nat): seq<T>
    requires SuperOk(sb) && |disk| == sb.size && b < sb.size
  {
    Marked(F, sb, disk, b, true)[b := F.zero]
  }

  /** Slots that keep their value and data blocks that keep their contents. */
  ghost predicate Kept<T, B>(F: Format<T, B>, sb: Super, disk: seq<T>, inodes: seq<Inode>, disk': seq<T>,
                             inodes': seq<Inode>, but: Slot)
    requires Shape(sb, disk, inodes) && Shape(sb, disk', inodes')
  {
    forall s | IsSlot(sb, s) && s != but :: Ptr(F, disk', inodes', s) == Ptr(F, disk, inodes, s)
  }

  lemma {:induction false} AllocatedFrame<T(!new), B(!new)>(F: Format<T, B>, sb: Super, disk: seq<T>, b: nat)
    requires Law(F) && SuperOk(sb) && |disk| == sb.size && sb.datastart <= b < sb.size
    ensures forall x: nat | x < sb.size :: Used(F, sb, Allocated(F, sb, disk, b), x) == (x == b || Used(F, sb, disk, x))
    ensures forall y | 0 <= y < sb.size && (y < sb.bmapstart || sb.datastart <= y) && y != b ::
              Allocated(F, sb, disk, b)[y] == disk[y]
    ensures Allocated(F, sb, disk, b)[b] == F.zero
  {
    MarkedBits(F, sb, disk, b, true);
    assert forall x: nat | x < sb.size ::
             Used(F, sb, Allocated(F, sb, disk, b), x) == Used(F, sb, Marked(F, sb, disk, b, true), x);
  }

  /** A free block b stored in the empty slot s, and marked. */
  lemma {:induction false} OwnedGrown<T(!new), B(!new)>(F: Format<T, B>, sb: Super, disk: seq<T>, inodes: seq<Inode>,
                                                        owner: map<nat, Slot>, disk': seq<T>, inodes': seq<Inode>,
                                                        s: Slot, b: nat)
    requires Owned(F, sb, disk, inodes, owner, 0, 0) && Shape(sb, disk', inodes')
    requires Kept(F, sb, disk, inodes, disk', inodes', s)
    requires IsSlot(sb, s) && Ptr(F, disk, inodes, s) == 0 && Ptr(F, disk', inodes', s) == b
    requires sb.datastart <= b < sb.size && !Used(F, sb, disk, b)
    requires forall x: nat | x < sb.size :: Used(F, sb, disk', x) == (x == b || Used(F, sb, disk, x))
    ensures b !in owner && Owned(F, sb, disk', inodes', owner[b := s], 0, 0)
  {
  }

  /** A new block stored in an inode's empty slot. */
  lemma {:induction false} GrowTop<T(!new), B(!new)>(F: Format<T, B>, sb: Super, disk: seq<T>, inodes: seq<Inode>,
                                                     owner: map<nat, Slot>, i: nat, k: nat, b: nat, inodes': seq<Inode>)
    requires Law(F) && Owned(F, sb, disk, inodes, owner, 0, 0) && IsSlot(sb, Top(i, k)) && inodes[i].addrs[k] == 0
    requires b < sb.size && !Used(F, sb, disk, b)
    requires inodes' == inodes[i := inodes[i].(addrs := inodes[i].addrs[k := b])]
    ensures sb.datastart <= b && b !in owner
    ensures Owned(F, sb, Allocated(F, sb, disk, b), inodes', owner[b := Top(i, k)], 0, 0)
    ensures Kept(F, sb, disk, inodes, Allocated(F, sb, disk, b), inodes', Top(i, k))
  {
    var disk' := Allocated(F, sb, disk, b);
    AllocatedFrame(F, sb, disk, b);
    forall s | IsSlot(sb, s) && s != Top(i, k) ensures Ptr(F, disk', inodes', s) == Ptr(F, disk, inodes, s) {
      if s.Leaf? && inodes[s.i].addrs[NDIRECT] != 0 { assert Ptr(F, disk, inodes, Top(s.i, NDIRECT)) in owner; }
    }
    OwnedGrown(F, sb, disk, inodes, owner, disk', inodes', Top(i, k), b);
  }

  /** The pointers after a new block is stored in an empty word of the indirect block. */
  lemma {:induction false} GrowLeafPtrs<T(!new), B(!new)>(F: Format<T, B>, sb: Super, disk: seq<T>, inodes: seq<Inode>,
                                                          owner: map<nat, Slot>, i: nat, j: nat, b: nat, mid: seq<T>,
                                                          disk': seq<T>)
    requires Law(F) && Owned(F, sb, disk, inodes, owner, 0, 0) && IsSlot(sb, Leaf(i, j)) && b < UINT_MAX && b !in owner
    requires 0 < inodes[i].addrs[NDIRECT] < sb.size && |mid| == |disk| == |disk'|
    requires forall y | sb.datastart <= y < sb.size && y != b :: mid[y] == disk[y]
    requires var a := inodes[i].addrs[NDIRECT]; disk' == mid[a := F.setWord(mid[a], j, b)]
    ensures Kept(F, sb, disk, inodes, disk', inodes, Leaf(i, j)) && Ptr(F, disk', inodes, Leaf(i, j)) == b
    ensures inodes[i].addrs[NDIRECT] >= sb.datastart
  {
    assert Ptr(F, disk, inodes, Top(i, NDIRECT)) in owner;
    forall s | IsSlot(sb, s) && s != Leaf(i, j) ensures Ptr(F, disk', inodes, s) == Ptr(F, disk, inodes, s) {
      if s.Leaf? && inodes[s.i].addrs[NDIRECT] != 0 { assert Ptr(F, disk, inodes, Top(s.i, NDIRECT)) in owner; }
    }
  }

  /** A new block stored in an empty word of the indirect block. */
  lemma {:induction false} GrowLeaf<T(!new), B(!new)>(F: Format<T, B>, sb: Super, disk: seq<T>, inodes: seq<Inode>,
                                                      owner: map<nat, Slot>, i: nat, j: nat, b: nat, disk': seq<T>)
    requires Law(F) && Owned(F, sb, disk, inodes, owner, 0, 0) && IsSlot(sb, Leaf(i, j))
    requires Ptr(F, disk, inodes, Leaf(i, j)) == 0
    requires b < sb.size && !Used(F, sb, disk, b) && 0 < inodes[i].addrs[NDIRECT] < sb.size
    requires var a := inodes[i].addrs[NDIRECT];
        disk' == Allocated(F, sb, disk, b)[a := F.setWord(Allocated(F, sb, disk, b)[a], j, b)]
    ensures sb.datastart <= b && b !in owner
    ensures Owned(F, sb, disk', inodes, owner[b := Leaf(i, j)], 0, 0)
    ensures Kept(F, sb, disk, inodes, disk', inodes, Leaf(i, j))
  {
    var mid := Allocated(F, sb, disk, b);
    AllocatedFrame(F, sb, disk, b);
    GrowLeafPtrs(F, sb, disk, inodes, owner, i, j, b, mid, disk');
    assert forall x: nat | x < sb.size :: Used(F, sb, disk', x) == Used(F, sb, mid, x);
    OwnedGrown(F, sb, disk, inodes, owner, disk', inodes, Leaf(i, j), b);
  }

  /** Marking a data block free moves no pointer. */
  lemma {:induction false} UnmarkKeeps<T(!new), B(!new)>(F: Format<T, B>, sb: Super, disk: seq<T>, inodes: seq<Inode>,
                                                         owner: map<nat, Slot>, i0: nat, n: nat, b: nat)
    requires Law(F) && Owned(F, sb, disk, inodes, owner, i0, n) && b < sb.size
    ensures forall s | IsSlot(sb, s) :: Ptr(F, Marked(F, sb, disk, b, false), inodes, s) == Ptr(F, disk, inodes, s)
    ensures forall y | 0 <= y < sb.size && (y < sb.bmapstart || sb.datastart <= y) ::
              Marked(F, sb, disk, b, false)[y] == disk[y]
  {
    var disk' := Marked(F, sb, disk, b, false);
    MarkedBits(F, sb, disk, b, false);
    forall s | IsSlot(sb, s) ensures Ptr(F, disk', inodes, s) == Ptr(F, disk, inodes, s) {
      if s.Leaf? && inodes[s.i].addrs[NDIRECT] != 0 { assert Ptr(F, disk, inodes, Top(s.i, NDIRECT)) in owner; }
    }
  }

  /** Block b is given up: its slot now holds 0 or is let off. */
  lemma {:induction false} OwnedShrunk<T(!new), B(!new)>(F: Format<T, B>, sb: Super, disk: seq<T>, inodes: seq<Inode>,
                                                         owner: map<nat, Slot>, i0: nat, n: nat, disk': seq<T>,
                                                         inodes': seq<Inode>, i1: nat, n': nat, b: nat)
    requires Owned(F, sb, disk, inodes, owner, i0, n) && b in owner && Shape(sb, disk', inodes')
    requires forall s | IsSlot(sb, s) && Ptr(F, disk', inodes', s) != 0 && !Exempt(s, i1, n') ::
               s != owner[b] && !Exempt(s, i0, n) && Ptr(F, disk', inodes', s) == Ptr(F, disk, inodes, s)
    requires forall x | x in owner && x != b :: Ptr(F, disk', inodes', owner[x]) == x
    requires forall x: nat | x < sb.size :: Used(F, sb, disk', x) == (x != b && Used(F, sb, disk, x))
    ensures Owned(F, sb, disk', inodes', owner - {b}, i1, n')
  {
    forall s | IsSlot(sb, s) && Ptr(F, disk', inodes', s) != 0 && !Exempt(s, i1, n')
      ensures Ptr(F, disk', inodes', s) in owner - {b} && owner[Ptr(F, disk', inodes', s)] == s
    {
      assert Ptr(F, disk, inodes, s) in owner;
    }
  }

  /** itrunc frees the direct block addrs[k]. */
  lemma {:induction false} ShrinkTop<T(!new), B(!new)>(F: Format<T, B>, sb: Super, disk: seq<T>, inodes: seq<Inode>,
                                                       owner: map<nat, Slot>, i: nat, k: nat, inodes': seq<Inode>)
    requires Law(F) && Owned(F, sb, disk, inodes, owner, 0, 0) && IsSlot(sb, Top(i, k)) && k < NDIRECT
    requires inodes[i].addrs[k] != 0
    requires inodes' == inodes[i := inodes[i].(addrs := inodes[i].addrs[k := 0])]
    ensures var b := inodes[i].addrs[k];
      b in owner && owner[b] == Top(i, k) && Used(F, sb, disk, b)
      && Owned(F, sb, Marked(F, sb, disk, b, false), inodes', owner - {b}, 0, 0)
  {
    var b := inodes[i].addrs[k];
    assert Ptr(F, disk, inodes, Top(i, k)) == b;
    var disk' := Marked(F, sb, disk, b, false);
    UnmarkKeeps(F, sb, disk, inodes, owner, 0, 0, b);
    MarkedBits(F, sb, disk, b, false);
    forall s | IsSlot(sb, s) && s != Top(i, k) ensures Ptr(F, disk', inodes', s) == Ptr(F, disk, inodes, s) {
      assert Ptr(F, disk', inodes, s) == Ptr(F, disk, inodes, s);
    }
    OwnedShrunk(F, sb, disk, inodes, owner, 0, 0, disk', inodes', 0, 0, b);
  }

  /** itrunc frees the block in word n of the indirect block. */
  lemma {:induction false} ShrinkLeaf<T(!new), B(!new)>(F: Format<T, B>, sb: Super, disk: seq<T>, inodes: seq<Inode>,
                                                        owner: map<nat, Slot>, i: nat, n: nat)
    requires Law(F) && Owned(F, sb, disk, inodes, owner, i, n) && IsSlot(sb, Leaf(i, n))
    ensures var b := Ptr(F, disk, inodes, Leaf(i, n));
      if b == 0 then Owned(F, sb, disk, inodes, owner, i, n + 1)
      else
        && b in owner && owner[b] == Leaf(i, n) && Used(F, sb, disk, b)
        && Owned(F, sb, Marked(F, sb, disk, b, false), inodes, owner - {b}, i, n + 1)
  {
    var b := Ptr(F, disk, inodes, Leaf(i, n));
    if b != 0 {
      UnmarkKeeps(F, sb, disk, inodes, owner, i, n, b);
      MarkedBits(F, sb, disk, b, false);
      OwnedShrunk(F, sb, disk, inodes, owner, i, n, Marked(F, sb, disk, b, false), inodes, i, n + 1, b);
    }
  }

  /** itrunc frees the indirect block itself, after all it points to. */
  lemma {:induction false} ShrinkIndirect<T(!new), B(!new)>(F: Format<T, B>, sb: Super, disk: seq<T>,
                                                            inodes: seq<Inode>, owner: map<nat, Slot>, i: nat,
                                                            inodes': seq<Inode>)
    requires Law(F) && Owned(F, sb, disk, inodes, owner, i, NINDIRECT) && i < sb.ninodes
    requires inodes[i].addrs[NDIRECT] != 0
    requires forall x | x in owner :: !(owner[x].Leaf? && owner[x].i == i)
    requires inodes' == inodes[i := inodes[i].(addrs := inodes[i].addrs[NDIRECT := 0])]
    ensures var b := inodes[i].addrs[NDIRECT];
      b in owner && owner[b] == Top(i, NDIRECT) && Used(F, sb, disk, b)
      && Owned(F, sb, Marked(F, sb, disk, b, false), inodes', owner - {b}, 0, 0)
  {
    var b := inodes[i].addrs[NDIRECT];
    assert Ptr(F, disk, inodes, Top(i, NDIRECT)) == b;
    var disk' := Marked(F, sb, disk, b, false);
    UnmarkKeeps(F, sb, disk, inodes, owner, i, NINDIRECT, b);
    MarkedBits(F, sb, disk, b, false);
    forall s | IsSlot(sb, s) && s != Top(i, NDIRECT) && !(s.Leaf? && s.i == i)
      ensures Ptr(F, disk', inodes', s) == Ptr(F, disk, inodes, s)
    {
      assert Ptr(F, disk', inodes, s) == Ptr(F, disk, inodes, s);
    }
    OwnedShrunk(F, sb, disk, inodes, owner, i, NINDIRECT, disk', inodes', 0, 0, b);
  }

  // ---- file contents ----

  lemma {:induction false} FileKept<T(!new), B(!new)>(F: Format<T, B>, disk: seq<T>, ino: Inode, disk': seq<T>,
                                                      ino': Inode, data: seq<B>)
    requires FileOk(F, disk, ino, data) && |ino'.addrs| == NDIRECT + 1 && ino'.size == ino.size && |disk'| == |disk|
    requires forall bn: nat | bn * BSIZE < |data| :: FilePtr(F, disk', ino', bn) == FilePtr(F, disk, ino, bn)
    requires forall bn: nat | bn * BSIZE < |data| :: disk'[FilePtr(F, disk, ino, bn)] == disk[FilePtr(F, disk, ino, bn)]
    ensures FileOk(F, disk', ino', data)
  {
    assert forall bn: nat | bn * BSIZE < |data| :: Chunk(F, disk', ino', bn) == Chunk(F, disk, ino, bn);
  }

  /** data with d written at off, growing it if need be. */
  function Overwrite<B>(data: seq<B>, off: nat, d: seq<B>): (r: seq<B>)
    requires off <= |data|
    ensures |r| == if off + |d| > |data| then off + |d| else |data|
    ensures forall x | 0 <= x < |r| :: r[x] == if off <= x < off + |d| then d[x - off] else data[x]
  {
    data[..off] + d + (if off + |d| < |data| then data[off + |d|..] else [])
  }

  /** The bytes of block bn after d is written into it. */
  lemma {:induction false} SplicedBlock<B>(was: seq<B>, block: seq<B>, data: seq<B>, bn: nat, o: nat, d: seq<B>, x: nat)
    requires |was| == BSIZE && o + |d| <= BSIZE && bn * BSIZE + o <= |data| && block == was[..o] + d + was[o + |d|..]
    requires x < BSIZE && bn * BSIZE + x < |Overwrite(data, bn * BSIZE + o, d)|
    requires bn * BSIZE + x < |data| ==> was[x] == data[bn * BSIZE + x]
    ensures |block| == BSIZE && block[x] == Overwrite(data, bn * BSIZE + o, d)[bn * BSIZE + x]
  {
  }

  /** The other blocks of the file stay. */
  lemma {:induction false} SplicedOther<T(!new), B(!new)>(F: Format<T, B>, disk: seq<T>, ino: Inode, disk': seq<T>,
                                                          ino': Inode, data: seq<B>, bn: nat, len: nat, m: nat)
    requires FileOk(F, disk, ino, data) && bn < MAXFILE && m != bn && m * BSIZE < len
    requires len <= (if (bn + 1) * BSIZE > |data| then (bn + 1) * BSIZE else |data|)
    requires bn * BSIZE <= |data| && 0 < FilePtr(F, disk, ino, bn) < |disk| && |disk'| == |disk|
    requires forall y | 0 <= y < |disk| && y != FilePtr(F, disk, ino, bn) :: disk'[y] == disk[y]
    requires ino' == ino.(size := len)
    requires forall m: nat | m < MAXFILE :: FilePtr(F, disk', ino, m) == FilePtr(F, disk, ino, m)
    requires forall m: nat | m < MAXFILE && m != bn && FilePtr(F, disk, ino, m) != 0 ::
               FilePtr(F, disk, ino, m) != FilePtr(F, disk, ino, bn)
    ensures m * BSIZE < |data| && m < MAXFILE && FilePtr(F, disk', ino', m) == FilePtr(F, disk, ino, m)
    ensures Chunk(F, disk', ino', m) == Chunk(F, disk, ino, m)
  {
    assert FilePtr(F, disk', ino', m) == FilePtr(F, disk', ino, m) == FilePtr(F, disk, ino, m);
  }

  /** Splicing d into block bn of a file at offset o writes d at bn * BSIZE + o. */
  lemma {:induction false} FileSpliced<T(!new), B(!new)>(F: Format<T, B>, disk: seq<T>, ino: Inode, disk': seq<T>,
                                                         ino': Inode, data: seq<B>, bn: nat, o: nat, d: seq<B>)
    requires FileOk(F, disk, ino, data) && bn < MAXFILE && 0 < FilePtr(F, disk, ino, bn) < |disk| && o + |d| <= BSIZE
    requires bn * BSIZE + o <= |data|
    requires |Chunk(F, disk, ino, bn)| == BSIZE && |disk'| == |disk|
    requires F.bytes(disk'[FilePtr(F, disk, ino, bn)]) == Chunk(F, disk, ino, bn)[..o] + d +
        Chunk(F, disk, ino, bn)[o + |d|..]
    requires forall y | 0 <= y < |disk| && y != FilePtr(F, disk, ino, bn) :: disk'[y] == disk[y]
    requires ino' == ino.(size := |Overwrite(data, bn * BSIZE + o, d)|)
    requires forall m: nat | m < MAXFILE :: FilePtr(F, disk', ino, m) == FilePtr(F, disk, ino, m)
    requires forall m: nat | m < MAXFILE && m != bn && FilePtr(F, disk, ino, m) != 0 ::
               FilePtr(F, disk, ino, m) != FilePtr(F, disk, ino, bn)
    ensures FileOk(F, disk', ino', Overwrite(data, bn * BSIZE + o, d))
  {
    var grown, b, block := Overwrite(data, bn * BSIZE + o, d), Chunk(F, disk, ino, bn), Chunk(F, disk', ino', bn);
    assert FilePtr(F, disk', ino', bn) == FilePtr(F, disk', ino, bn) == FilePtr(F, disk, ino, bn);
    assert block == b[..o] + d + b[o + |d|..];
    forall m: nat | m * BSIZE < |grown|
      ensures 0 < FilePtr(F, disk', ino', m) < |disk'| && |Chunk(F, disk', ino', m)| == BSIZE
    {
      if m != bn { SplicedOther(F, disk, ino, disk', ino', data, bn, |grown|, m); }
    }
    forall m: nat, x: nat | x < BSIZE && m * BSIZE + x < |grown|
      ensures Chunk(F, disk', ino', m)[x] == grown[m * BSIZE + x]
    {
      if m == bn {
        SplicedBlock(b, block, data, bn, o, d, x);
      } else {
        SplicedOther(F, disk, ino, disk', ino', data, bn, |grown|, m);
        assert Chunk(F, disk, ino, m)[x] == data[m * BSIZE + x];
      }
    }
  }

  /** What the code needs to know to read inode i and to call balloc. */
  lemma {:induction false} OwnedFacts<T(!new), B(!new)>(F: Format<T, B>, sb: Super, disk: seq<T>, inodes: seq<Inode>,
                                                        owner: map<nat, Slot>, i: nat)
    requires Owned(F, sb, disk, inodes, owner, 0, 0) && i < sb.ninodes
    ensures SuperOk(sb) && |disk| == sb.size && |inodes| == sb.ninodes && |inodes[i].addrs| == NDIRECT + 1
    ensures forall x: nat | x < sb.datastart :: Used(F, sb, disk, x)
    ensures inodes[i].addrs[NDIRECT] != 0 ==> sb.datastart <= inodes[i].addrs[NDIRECT] < sb.size
  {
    hide Used;
    assert Ptr(F, disk, inodes, Top(i, NDIRECT)) == inodes[i].addrs[NDIRECT];
  }

  // ---- what an operation on inode i leaves alone ----

  predicate SameMeta(x: Inode, y: Inode) {
    x.kind == y.kind && x.major == y.major && x.minor == y.minor && x.nlink == y.nlink && x.size == y.size
  }

  /** Only the addresses of inode i differ. */
  ghost predicate Kin(inodes: seq<Inode>, inodes': seq<Inode>, i: nat) {
    && |inodes| == |inodes'| && i < |inodes| && SameMeta(inodes[i], inodes'[i])
    && forall m | 0 <= m < |inodes| && m != i :: inodes'[m] == inodes[m]
  }

  lemma {:induction false} KinRefl(a: seq<Inode>, i: nat)
    requires i < |a|
    ensures Kin(a, a, i)
  {
  }

  lemma {:induction false} KinTrans(a: seq<Inode>, b: seq<Inode>, c: seq<Inode>, i: nat)
    requires Kin(a, b, i) && Kin(b, c, i)
    ensures Kin(a, c, i)
  {
  }

  /** Between the two states inode i may have gained blocks; nothing else changed. */
  ghost predicate Extended<T, B>(F: Format<T, B>, sb: Super, disk: seq<T>, inodes: seq<Inode>, owner: map<nat, Slot>,
                                 disk': seq<T>, inodes': seq<Inode>, owner': map<nat, Slot>, i: nat) {
    && Shape(sb, disk, inodes) && Shape(sb, disk', inodes') && i < sb.ninodes
    && (forall m | 0 <= m < |inodes| && m != i :: inodes'[m] == inodes[m]) && SameMeta(inodes[i], inodes'[i])
    && (forall s | IsSlot(sb, s) && Ptr(F, disk, inodes, s) != 0 ::
          Ptr(F, disk', inodes', s) == Ptr(F, disk, inodes, s))
    && (forall b | b in owner :: b in owner' && owner'[b] == owner[b])
    && (forall b: nat | b < sb.bmapstart :: disk'[b] == disk[b])
    && (forall b | b in owner && b < sb.size && owner[b] != Top(i, NDIRECT) :: disk'[b] == disk[b])
  }

  /** A new block b in slot s of inode i. */
  lemma {:induction false} ExtendedGrow<T(!new), B(!new)>(F: Format<T, B>, sb: Super, disk: seq<T>, inodes: seq<Inode>,
                                                          owner: map<nat, Slot>, disk': seq<T>, inodes': seq<Inode>,
                                                          s: Slot, b: nat)
    requires Owned(F, sb, disk, inodes, owner, 0, 0) && Shape(sb, disk', inodes')
    requires Kept(F, sb, disk, inodes, disk', inodes', s)
    requires IsSlot(sb, s) && Ptr(F, disk, inodes, s) == 0 && b !in owner && sb.datastart <= b
    requires (forall m | 0 <= m < |inodes| && m != s.i :: inodes'[m] == inodes[m])
    requires SameMeta(inodes[s.i], inodes'[s.i])
    requires forall y | 0 <= y < sb.size && (y < sb.bmapstart || sb.datastart <= y) && y != b
        && y != inodes[s.i].addrs[NDIRECT] ::
               disk'[y] == disk[y]
    requires inodes[s.i].addrs[NDIRECT] == 0 ==> disk'[0] == disk[0]
    ensures Extended(F, sb, disk, inodes, owner, disk', inodes', owner[b := s], s.i)
  {
    hide Used;
    var a := inodes[s.i].addrs[NDIRECT];
    assert Ptr(F, disk, inodes, Top(s.i, NDIRECT)) == a;
    assert a == 0 || (a in owner && a >= sb.datastart && owner[a] == Top(s.i, NDIRECT));
  }

  lemma {:induction false} ExtendedTop<T(!new), B(!new)>(F: Format<T, B>, sb: Super, disk: seq<T>, inodes: seq<Inode>,
                                                         owner: map<nat, Slot>, i: nat, k: nat, b: nat,
                                                         inodes': seq<Inode>)
    requires Law(F) && Owned(F, sb, disk, inodes, owner, 0, 0) && IsSlot(sb, Top(i, k)) && inodes[i].addrs[k] == 0
    requires b < sb.size && !Used(F, sb, disk, b)
    requires inodes' == inodes[i := inodes[i].(addrs := inodes[i].addrs[k := b])]
    ensures Owned(F, sb, Allocated(F, sb, disk, b), inodes', owner[b := Top(i, k)], 0, 0) && b !in owner
    ensures Allocated(F, sb, disk, b)[b] == F.zero
    ensures Extended(F, sb, disk, inodes, owner, Allocated(F, sb, disk, b), inodes', owner[b := Top(i, k)], i)
  {
    hide Law, Used;
    GrowTop(F, sb, disk, inodes, owner, i, k, b, inodes');
    AllocatedFrame(F, sb, disk, b);
    ExtendedGrow(F, sb, disk, inodes, owner, Allocated(F, sb, disk, b), inodes', Top(i, k), b);
  }

  lemma {:induction false} ExtendedLeaf<T(!new), B(!new)>(F: Format<T, B>, sb: Super, disk: seq<T>, inodes: seq<Inode>,
                                                          owner: map<nat, Slot>, i: nat, j: nat, b: nat, disk': seq<T>)
    requires Law(F) && Owned(F, sb, disk, inodes, owner, 0, 0) && IsSlot(sb, Leaf(i, j))
    requires Ptr(F, disk, inodes, Leaf(i, j)) == 0
    requires b < sb.size && !Used(F, sb, disk, b) && 0 < inodes[i].addrs[NDIRECT] < sb.size
    requires var a := inodes[i].addrs[NDIRECT];
        disk' == Allocated(F, sb, disk, b)[a := F.setWord(Allocated(F, sb, disk, b)[a], j, b)]
    ensures Owned(F, sb, disk', inodes, owner[b := Leaf(i, j)], 0, 0) && Ptr(F, disk', inodes, Leaf(i, j)) == b
    ensures b !in owner
    ensures Extended(F, sb, disk, inodes, owner, disk', inodes, owner[b := Leaf(i, j)], i)
  {
    GrowLeaf(F, sb, disk, inodes, owner, i, j, b, disk');
    AllocatedFrame(F, sb, disk, b);
    ExtendedGrow(F, sb, disk, inodes, owner, disk', inodes, Leaf(i, j), b);
  }

  lemma {:induction false} ExtendedRefl<T(!new), B(!new)>(F: Format<T, B>, sb: Super, disk: seq<T>, inodes: seq<Inode>,
                                                          owner: map<nat, Slot>, i: nat)
    requires Owned(F, sb, disk, inodes, owner, 0, 0) && i < sb.ninodes
    ensures Extended(F, sb, disk, inodes, owner, disk, inodes, owner, i)
  {
  }

  lemma {:induction false} ExtendedFacts<T(!new), B(!new)>(F: Format<T, B>, sb: Super, disk: seq<T>, inodes: seq<Inode>,
                                                           owner: map<nat, Slot>, disk': seq<T>, inodes': seq<Inode>,
                                                           owner': map<nat, Slot>, i: nat)
    requires Extended(F, sb, disk, inodes, owner, disk', inodes', owner', i)
    ensures |inodes| == |inodes'| == sb.ninodes && i < sb.ninodes && Kin(inodes, inodes', i)
    ensures |inodes[i].addrs| == |inodes'[i].addrs| == NDIRECT + 1
    ensures inodes[i].addrs[NDIRECT] != 0 ==> inodes'[i].addrs[NDIRECT] == inodes[i].addrs[NDIRECT]
  {
    assert Ptr(F, disk, inodes, Top(i, NDIRECT)) == inodes[i].addrs[NDIRECT];
  }

  lemma {:induction false} FileSize<T(!new), B(!new)>(F: Format<T, B>, disk: seq<T>, ino: Inode, data: seq<B>)
    requires FileOk(F, disk, ino, data)
    ensures ino.size == |data| && |ino.addrs| == NDIRECT + 1 && |data| <= MAXFILE * BSIZE
  {
  }

  /** A block below the file's size is there. */
  lemma {:induction false} NoHole<T(!new), B(!new)>(F: Format<T, B>, disk: seq<T>, ino: Inode, data: seq<B>, bn: nat)
    requires |ino.addrs| == NDIRECT + 1 && FileOk(F, disk, ino.(size := |data|), data) && bn * BSIZE < |data|
    ensures 0 < FilePtr(F, disk, ino, bn) < |disk| && bn < MAXFILE
  {
    assert FilePtr(F, disk, ino.(size := |data|), bn) == FilePtr(F, disk, ino, bn);
  }

  lemma {:induction false} ExtendedTrans<T(!new), B(!new)>(F: Format<T, B>, sb: Super, d0: seq<T>, n0: seq<Inode>,
                                                           o0: map<nat, Slot>, d1: seq<T>, n1: seq<Inode>,
                                                           o1: map<nat, Slot>, d2: seq<T>, n2: seq<Inode>,
                                                           o2: map<nat, Slot>, i: nat)
    requires Extended(F, sb, d0, n0, o0, d1, n1, o1, i) && Extended(F, sb, d1, n1, o1, d2, n2, o2, i)
    ensures Extended(F, sb, d0, n0, o0, d2, n2, o2, i)
  {
    forall s | IsSlot(sb, s) && Ptr(F, d0, n0, s) != 0 ensures Ptr(F, d2, n2, s) == Ptr(F, d0, n0, s) {
      assert Ptr(F, d1, n1, s) == Ptr(F, d0, n0, s);
    }
  }

  lemma {:induction false} SlotPtr<T, B>(F: Format<T, B>, disk: seq<T>, inodes: seq<Inode>, i: nat, bn: nat)
    requires i < |inodes| && |inodes[i].addrs| == NDIRECT + 1
    ensures FilePtr(F, disk, inodes[i], bn) == Ptr(F, disk, inodes, SlotOf(i, bn))
  {
  }

  /** A block of file i is owned by its slot. */
  lemma {:induction false} FilePtrOwned<T(!new), B(!new)>(F: Format<T, B>, sb: Super, disk: seq<T>, inodes: seq<Inode>,
                                                          owner: map<nat, Slot>, i: nat, bn: nat)
    requires Owned(F, sb, disk, inodes, owner, 0, 0) && i < sb.ninodes && bn < MAXFILE
    ensures FilePtr(F, disk, inodes[i], bn) == Ptr(F, disk, inodes, SlotOf(i, bn)) && IsSlot(sb, SlotOf(i, bn))
    ensures SlotOf(i, bn) != Top(i, NDIRECT)
    ensures FilePtr(F, disk, inodes[i], bn) != 0 ==>
      var p := FilePtr(F, disk, inodes[i], bn); p in owner && owner[p] == SlotOf(i, bn) && sb.datastart <= p < sb.size
  {
    assert Ptr(F, disk, inodes, SlotOf(i, bn)) == FilePtr(F, disk, inodes[i], bn);
  }

  lemma {:induction false} PtrExtended<T(!new), B(!new)>(F: Format<T, B>, sb: Super, disk: seq<T>, inodes: seq<Inode>,
                                                         owner: map<nat, Slot>, disk': seq<T>, inodes': seq<Inode>,
                                                         owner': map<nat, Slot>, i: nat, m: nat, bn: nat)
    requires Owned(F, sb, disk, inodes, owner, 0, 0) && Extended(F, sb, disk, inodes, owner, disk', inodes', owner', i)
    requires m < sb.ninodes
    requires bn < MAXFILE && FilePtr(F, disk, inodes[m], bn) != 0
    ensures FilePtr(F, disk', inodes'[m], bn) == FilePtr(F, disk, inodes[m], bn) < sb.size
    ensures disk'[FilePtr(F, disk, inodes[m], bn)] == disk[FilePtr(F, disk, inodes[m], bn)]
  {
    FilePtrOwned(F, sb, disk, inodes, owner, m, bn);
    SlotPtr(F, disk', inodes', m, bn);
    assert Ptr(F, disk', inodes', SlotOf(m, bn)) == Ptr(F, disk, inodes, SlotOf(m, bn));
    assert SlotOf(m, bn) != Top(i, NDIRECT);
  }

  /** Files survive the growth of an inode. */
  lemma {:induction false} FileExtended<T(!new), B(!new)>(F: Format<T, B>, sb: Super, disk: seq<T>, inodes: seq<Inode>,
                                                          owner: map<nat, Slot>, disk': seq<T>, inodes': seq<Inode>,
                                                          owner': map<nat, Slot>, i: nat, m: nat, data: seq<B>)
    requires Owned(F, sb, disk, inodes, owner, 0, 0) && Extended(F, sb, disk, inodes, owner, disk', inodes', owner', i)
    requires m < sb.ninodes
    requires FileOk(F, disk, inodes[m].(size := |data|), data)
    ensures FileOk(F, disk', inodes'[m].(size := |data|), data)
  {
    var ino, ino' := inodes[m].(size := |data|), inodes'[m].(size := |data|);
    forall bn: nat | bn * BSIZE < |data|
      ensures FilePtr(F, disk', ino', bn) == FilePtr(F, disk, ino, bn)
      ensures disk'[FilePtr(F, disk, ino, bn)] == disk[FilePtr(F, disk, ino, bn)]
    {
      assert FilePtr(F, disk, ino, bn) == FilePtr(F, disk, inodes[m], bn);
      PtrExtended(F, sb, disk, inodes, owner, disk', inodes', owner', i, m, bn);
    }
    FileKept(F, disk, ino, disk', ino', data);
  }

  lemma {:induction false} SyncedKept<T(!new), B(!new)>(F: Format<T, B>, sb: Super, disk: seq<T>, inodes: seq<Inode>,
                                                        disk': seq<T>, inodes': seq<Inode>, m: nat)
    requires SuperOk(sb) && |disk| == |disk'| == sb.size && |inodes| == |inodes'| == sb.ninodes && m < sb.ninodes
    requires inodes'[m] == inodes[m] && Synced(F, sb, disk, inodes, m)
    requires forall b: nat | b < sb.bmapstart :: disk'[b] == disk[b]
    ensures Synced(F, sb, disk', inodes', m)
  {
    assert sb.inodestart + m / IPB < sb.bmapstart;
  }

  /** Writing a block that is neither free map nor indirect moves no pointer. */
  lemma {:induction false} PlainWrite<T(!new), B(!new)>(F: Format<T, B>, sb: Super, disk: seq<T>, inodes: seq<Inode>,
                                                        owner: map<nat, Slot>, y: nat, x: T)
    requires Owned(F, sb, disk, inodes, owner, 0, 0) && y < sb.size && (y < sb.bmapstart || sb.datastart <= y)
    requires y in owner ==> !(owner[y].Top? && owner[y].k == NDIRECT)
    ensures Owned(F, sb, disk[y := x], inodes, owner, 0, 0)
    ensures forall s | IsSlot(sb, s) :: Ptr(F, disk[y := x], inodes, s) == Ptr(F, disk, inodes, s)
  {
    var disk' := disk[y := x];
    forall s | IsSlot(sb, s) ensures Ptr(F, disk', inodes, s) == Ptr(F, disk, inodes, s) {
      if s.Leaf? && inodes[s.i].addrs[NDIRECT] != 0 { assert Ptr(F, disk, inodes, Top(s.i, NDIRECT)) in owner; }
    }
    assert forall b: nat | b < sb.size :: Used(F, sb, disk', b) == Used(F, sb, disk, b);
  }

  /** A file none of whose blocks is y is unaffected by writing y. */
  lemma {:induction false} PlainFile<T(!new), B(!new)>(F: Format<T, B>, sb: Super, disk: seq<T>, inodes: seq<Inode>,
                                                       owner: map<nat, Slot>, y: nat, x: T, m: nat, data: seq<B>)
    requires Owned(F, sb, disk, inodes, owner, 0, 0) && y < sb.size && m < sb.ninodes
    requires FileOk(F, disk, inodes[m], data)
    requires forall s | IsSlot(sb, s) :: Ptr(F, disk[y := x], inodes, s) == Ptr(F, disk, inodes, s)
    requires y in owner ==> owner[y].i != m
    ensures FileOk(F, disk[y := x], inodes[m], data)
  {
    var disk' := disk[y := x];
    forall bn: nat | bn * BSIZE < |data|
      ensures FilePtr(F, disk', inodes[m], bn) == FilePtr(F, disk, inodes[m], bn)
      ensures disk'[FilePtr(F, disk, inodes[m], bn)] == disk[FilePtr(F, disk, inodes[m], bn)]
    {
      FilePtrOwned(F, sb, disk, inodes, owner, m, bn);
      assert Ptr(F, disk', inodes, SlotOf(m, bn)) == Ptr(F, disk, inodes, SlotOf(m, bn));
    }
    FileKept(F, disk, inodes[m], disk', inodes[m], data);
  }

  /** Every file but i is in order: its contents, and its dinode on disk. */
  ghost predicate Others<T, B>(F: Format<T, B>, sb: Super, disk: seq<T>, inodes: seq<Inode>, files: seq<seq<B>>,
                               i: nat) {
    && Shape(sb, disk, inodes) && |files| == sb.ninodes
    && (forall m: nat | m < sb.ninodes && m != i :: FileOk(F, disk, inodes[m], files[m]))
    && (forall m: nat | m < sb.ninodes && m != i :: Synced(F, sb, disk, inodes, m))
  }

  lemma {:induction false} OthersShape<T(!new), B(!new)>(F: Format<T, B>, sb: Super, disk: seq<T>, inodes: seq<Inode>,
                                                         files: seq<seq<B>>, i: nat)
    requires Others(F, sb, disk, inodes, files, i)
    ensures SuperOk(sb) && |disk| == sb.size && |inodes| == |files| == sb.ninodes
    ensures forall m | 0 <= m < sb.ninodes :: |inodes[m].addrs| == NDIRECT + 1
  {
  }

  lemma {:induction false} OthersExtended<T(!new), B(!new)>(F: Format<T, B>, sb: Super, disk: seq<T>,
                                                            inodes: seq<Inode>, owner: map<nat, Slot>, disk': seq<T>,
                                                            inodes': seq<Inode>, owner': map<nat, Slot>,
                                                            files: seq<seq<B>>, i: nat)
    requires Owned(F, sb, disk, inodes, owner, 0, 0) && Extended(F, sb, disk, inodes, owner, disk', inodes', owner', i)
    requires Others(F, sb, disk, inodes, files, i)
    ensures Others(F, sb, disk', inodes', files, i)
  {
    forall m: nat | m < sb.ninodes && m != i ensures FileOk(F, disk', inodes'[m], files[m]) {
      assert FileOk(F, disk, inodes[m], files[m]);
      assert inodes[m].(size := |files[m]|) == inodes[m] == inodes'[m];
      FileExtended(F, sb, disk, inodes, owner, disk', inodes', owner', i, m, files[m]);
    }
    forall m: nat | m < sb.ninodes && m != i ensures Synced(F, sb, disk', inodes', m) {
      SyncedKept(F, sb, disk, inodes, disk', inodes', m);
    }
  }

  /** Writing a data block of file i leaves the other files alone. */
  lemma {:induction false} OthersWritten<T(!new), B(!new)>(F: Format<T, B>, sb: Super, disk: seq<T>, inodes: seq<Inode>,
                                                           owner: map<nat, Slot>, y: nat, x: T, files: seq<seq<B>>,
                                                           i: nat)
    requires Owned(F, sb, disk, inodes, owner, 0, 0) && Others(F, sb, disk, inodes, files, i)
    requires sb.datastart <= y < sb.size && y in owner && owner[y].i == i && owner[y] != Top(i, NDIRECT)
    ensures Owned(F, sb, disk[y := x], inodes, owner, 0, 0) && Others(F, sb, disk[y := x], inodes, files, i)
    ensures forall s | IsSlot(sb, s) :: Ptr(F, disk[y := x], inodes, s) == Ptr(F, disk, inodes, s)
  {
    var disk' := disk[y := x];
    PlainWrite(F, sb, disk, inodes, owner, y, x);
    forall m: nat | m < sb.ninodes && m != i ensures FileOk(F, disk', inodes[m], files[m]) {
      PlainFile(F, sb, disk, inodes, owner, y, x, m, files[m]);
    }
    forall m: nat | m < sb.ninodes && m != i ensures Synced(F, sb, disk', inodes, m) {
      SyncedKept(F, sb, disk, inodes, disk', inodes, m);
    }
  }

  /** Splicing bytes into the block of file i that holds offset off writes them there. */
  lemma {:induction false} DataWritten<T(!new), B(!new)>(F: Format<T, B>, sb: Super, disk: seq<T>, inodes: seq<Inode>,
                                                         owner: map<nat, Slot>, disk': seq<T>, i: nat, bn: nat, o: nat,
                                                         d: seq<B>, data: seq<B>, grown: seq<B>)
    requires Law(F) && Owned(F, sb, disk, inodes, owner, 0, 0) && i < sb.ninodes && bn < MAXFILE
    requires FilePtr(F, disk, inodes[i], bn) != 0
    requires FileOk(F, disk, inodes[i].(size := |data|), data) && o + |d| <= BSIZE && bn * BSIZE + o <= |data|
    requires var y := FilePtr(F, disk, inodes[i], bn); y < sb.size && disk' == disk[y := F.splice(disk[y], o, d)]
    requires forall s | IsSlot(sb, s) :: Ptr(F, disk', inodes, s) == Ptr(F, disk, inodes, s)
    requires grown == Overwrite(data, bn * BSIZE + o, d)
    ensures FileOk(F, disk', inodes[i].(size := |grown|), grown)
  {
    var ino := inodes[i].(size := |data|);
    assert forall m: nat ::
             FilePtr(F, disk, ino, m) == FilePtr(F, disk, inodes[i], m)
             && FilePtr(F, disk', ino, m) == FilePtr(F, disk', inodes[i], m);
    FilePtrOwned(F, sb, disk, inodes, owner, i, bn);
    forall m: nat | m < MAXFILE ensures FilePtr(F, disk', ino, m) == FilePtr(F, disk, ino, m) {
      SlotPtr(F, disk', inodes, i, m);
      SlotPtr(F, disk, inodes, i, m);
    }
    forall m: nat | m < MAXFILE && m != bn && FilePtr(F, disk, ino, m) != 0
      ensures FilePtr(F, disk, ino, m) != FilePtr(F, disk, ino, bn)
    {
      FilePtrOwned(F, sb, disk, inodes, owner, i, m);
      assert SlotOf(i, m) != SlotOf(i, bn);
    }
    FileSpliced(F, disk, ino, disk', inodes[i].(size := |grown|), data, bn, o, d);
  }

  /** The fields of an inode other than its addresses fit their on-disk widths. */
  predicate MetaOk(x: Inode) { x.kind < 0x1_0000 && x.major < 0x1_0000 && x.minor < 0x1_0000 && x.nlink < 0x1_0000 }

  lemma {:induction false} CanStore<T(!new), B(!new)>(F: Format<T, B>, sb: Super, disk: seq<T>, inodes: seq<Inode>,
                                                      owner: map<nat, Slot>, i: nat)
    requires Owned(F, sb, disk, inodes, owner, 0, 0) && i < sb.ninodes && MetaOk(inodes[i])
    requires inodes[i].size <= MAXFILE * BSIZE
    ensures Storable(inodes[i])
  {
    forall k | 0 <= k < |inodes[i].addrs| ensures inodes[i].addrs[k] < UINT_MAX {
      assert Ptr(F, disk, inodes, Top(i, k)) == inodes[i].addrs[k];
    }
  }

  function InodeBlock(sb: Super, i: nat): nat { sb.inodestart + i / IPB }

  /** iupdate: the dinode on disk becomes the in-memory inode; nothing else changes. */
  lemma {:induction false} InodeWritten<T(!new), B(!new)>(F: Format<T, B>, sb: Super, disk: seq<T>, inodes: seq<Inode>,
                                                          owner: map<nat, Slot>, files: seq<seq<B>>, i: nat,
                                                          disk': seq<T>, data: seq<B>)
    requires Law(F) && Owned(F, sb, disk, inodes, owner, 0, 0) && Others(F, sb, disk, inodes, files, i)
    requires i < sb.ninodes && Storable(inodes[i])
    requires InodeBlock(sb, i) < sb.size
    requires disk' == disk[InodeBlock(sb, i) := F.setInode(disk[InodeBlock(sb, i)], i % IPB, inodes[i])]
    requires FileOk(F, disk, inodes[i], data)
    ensures Owned(F, sb, disk', inodes, owner, 0, 0) && Others(F, sb, disk', inodes, files, i)
    ensures Synced(F, sb, disk', inodes, i) && FileOk(F, disk', inodes[i], data)
  {
    hide Law, FileOk, Used;
    var y, x := InodeBlock(sb, i), F.setInode(disk[InodeBlock(sb, i)], i % IPB, inodes[i]);
    assert y < sb.bmapstart && y !in owner;
    PlainWrite(F, sb, disk, inodes, owner, y, x);
    PlainFile(F, sb, disk, inodes, owner, y, x, i, data);
    forall m: nat | m < sb.ninodes && m != i ensures FileOk(F, disk', inodes[m], files[m]) {
      PlainFile(F, sb, disk, inodes, owner, y, x, m, files[m]);
    }
    forall m: nat | m < sb.ninodes
      ensures m == i || Synced(F, sb, disk, inodes, m) ==> Synced(F, sb, disk', inodes, m)
    {
      DinodeWritten(F, sb, disk, inodes, i, m);
    }
  }

  lemma {:induction false} DinodeWritten<T(!new), B(!new)>(F: Format<T, B>, sb: Super, disk: seq<T>, inodes: seq<Inode>,
                                                           i: nat, m: nat)
    requires Law(F) && Shape(sb, disk, inodes) && i < sb.ninodes && m < sb.ninodes && Storable(inodes[i])
    requires InodeBlock(sb, i) < sb.size && (m == i || Synced(F, sb, disk, inodes, m))
    ensures Synced(F, sb, disk[InodeBlock(sb, i) := F.setInode(disk[InodeBlock(sb, i)], i % IPB, inodes[i])], inodes, m)
  {
    if m / IPB == i / IPB { assert m == i <==> m % IPB == i % IPB; }
  }

  /** One round of writei once the block is there. */
  lemma {:induction false} BlockWritten<T(!new), B(!new)>(F: Format<T, B>, sb: Super, disk: seq<T>, inodes: seq<Inode>,
                                                          owner: map<nat, Slot>, files: seq<seq<B>>, disk': seq<T>,
                                                          i: nat, off: nat, d: seq<B>, data: seq<B>)
    requires Law(F) && Owned(F, sb, disk, inodes, owner, 0, 0) && i < sb.ninodes
    requires FilePtr(F, disk, inodes[i], off / BSIZE) != 0
    requires Others(F, sb, disk, inodes, files, i) && FileOk(F, disk, inodes[i].(size := |data|), data)
    requires off % BSIZE + |d| <= BSIZE && off <= |data| && off < MAXFILE * BSIZE
    requires var y := FilePtr(F, disk, inodes[i], off / BSIZE);
        y < |disk| && disk' == disk[y := F.splice(disk[y], off % BSIZE, d)]
    ensures Owned(F, sb, disk', inodes, owner, 0, 0) && Others(F, sb, disk', inodes, files, i)
    ensures var grown := Overwrite(data, off, d); FileOk(F, disk', inodes[i].(size := |grown|), grown)
  {
    hide Law, FileOk, Others, Overwrite, Used;
    var bn, y := off / BSIZE, FilePtr(F, disk, inodes[i], off / BSIZE);
    FilePtrOwned(F, sb, disk, inodes, owner, i, bn);
    OthersWritten(F, sb, disk, inodes, owner, y, disk'[y], files, i);
    DataWritten(F, sb, disk, inodes, owner, disk', i, bn, off % BSIZE, d, data, Overwrite(data, off, d));
  }

  lemma {:induction false} OverwriteNone<B>(data: seq<B>, off: nat)
    requires off <= |data|
    ensures Overwrite(data, off, []) == data
  {
  }

  lemma {:induction false} OverwriteMore<B>(data: seq<B>, off: nat, src: seq<B>, tot: nat, m: nat)
    requires off <= |data| && tot + m <= |src|
    ensures Overwrite(Overwrite(data, off, src[..tot]), off + tot, src[tot..tot + m]) ==
        Overwrite(data, off, src[..tot + m])
  {
  }

  // ---- how much of the log one write can take ----

  /** After `rounds` rounds of writei(off, n), `allocs` of which had to allocate a data block. */
  predicate Spent(off: nat, n: nat, rounds: nat, allocs: nat) {
    && allocs <= rounds && (off % BSIZE != 0 && rounds > 0 ==> allocs < rounds)
    && (rounds > 0 ==> (off / BSIZE + rounds - 1) * BSIZE < off + n)
  }

  /** How many bytes the round of readi or writei that starts with tot bytes done moves: up to a block boundary. */
  function Round(off: nat, n: nat, tot: nat): (m: nat)
    requires tot < n
    ensures 0 < m && tot + m <= n && (off + tot) % BSIZE + m <= BSIZE
  {
    if n - tot < BSIZE - (off + tot) % BSIZE then n - tot else BSIZE - (off + tot) % BSIZE
  }

  /** At the top of the loop with tot bytes written: every round but the first starts a new block. */
  predicate AtRound(off: nat, tot: nat, rounds: nat) {
    if rounds == 0 then tot == 0 else off + tot == (off / BSIZE + rounds) * BSIZE
  }

  lemma {:induction false} SpentStep(off: nat, n: nat, tot: nat, size: nat, rounds: nat, allocs: nat, a: nat)
    requires Spent(off, n, rounds, allocs) && AtRound(off, tot, rounds) && tot < n && off + tot <= size
    requires a <= if (off + tot) / BSIZE * BSIZE < size then 0 else 1
    ensures Spent(off, n, rounds + 1, allocs + a)
    ensures tot + Round(off, n, tot) < n ==> AtRound(off, tot + Round(off, n, tot), rounds + 1)
  {
  }

  /** A chunk of three blocks' worth of bytes: four data blocks and three allocations at most. */
  lemma {:induction false} SpentBound(off: nat, n: nat, rounds: nat, allocs: nat)
    requires Spent(off, n, rounds, allocs) && n <= 3 * BSIZE
    ensures rounds + allocs <= 7
  {
  }

  lemma {:induction false} SubsetCard(a: set<nat>, b: set<nat>)
    requires a <= b
    ensures |a| <= |b|
  {
    assert b == a + (b - a);
  }

  lemma {:induction false} UnionCard(a: set<nat>, b: set<nat>)
    ensures |a + b| <= |a| + |b|
  {
    assert |a + b| + |a * b| == |a| + |b|;
  }

  /** The indirect block of an inode, if it has one. */
  function Indirect(ino: Inode): set<nat>
    requires |ino.addrs| == NDIRECT + 1
  {
    if ino.addrs[NDIRECT] == 0 then {} else {ino.addrs[NDIRECT]}
  }

  /** The blocks a write has logged: `spent`, and the indirect block. `ind` was its number at first. */
  ghost predicate Budget(base: set<nat>, logged: set<nat>, ino: Inode, ind: nat, off: nat, n: nat, rounds: nat,
                         allocs: nat, spent: set<nat>) {
    && |ino.addrs| == NDIRECT + 1 && logged <= base + spent + Indirect(ino) && Spent(off, n, rounds, allocs)
    && |spent| <= rounds + allocs + (if ind == ino.addrs[NDIRECT] then 0 else 1)
    && (ind != 0 ==> ino.addrs[NDIRECT] == ind)
  }

  lemma {:induction false} BudgetStart(logged: set<nat>, ino: Inode, off: nat, n: nat)
    requires |ino.addrs| == NDIRECT + 1
    ensures Budget(logged, logged, ino, ino.addrs[NDIRECT], off, n, 0, 0, {}) && AtRound(off, 0, 0)
  {
  }

  lemma {:induction false} BudgetStep(base: set<nat>, logged: set<nat>, ino: Inode, ind: nat, off: nat, n: nat,
                                      tot: nat, size: nat, rounds: nat, allocs: nat, spent: set<nat>, logged': set<nat>,
                                      ino': Inode, maps: set<nat>, addr: nat, a: nat)
    requires Budget(base, logged, ino, ind, off, n, rounds, allocs, spent) && AtRound(off, tot, rounds) && tot < n
    requires off + tot <= size
    requires a == if (off + tot) / BSIZE * BSIZE < size then 0 else 1
    requires |ino'.addrs| == NDIRECT + 1 && logged' <= logged + maps + {addr} + Indirect(ino')
    requires |maps| <= a + if ino.addrs[NDIRECT] == ino'.addrs[NDIRECT] then 0 else 1
    requires ino.addrs[NDIRECT] != 0 ==> ino'.addrs[NDIRECT] == ino.addrs[NDIRECT]
    ensures Budget(base, logged', ino', ind, off, n, rounds + 1, allocs + a, spent + maps + {addr})
    ensures tot + Round(off, n, tot) < n ==> AtRound(off, tot + Round(off, n, tot), rounds + 1)
  {
    hide Spent, AtRound;
    SpentStep(off, n, tot, size, rounds, allocs, a);
    UnionCard(spent, maps);
    UnionCard(spent + maps, {addr});
  }

  lemma {:induction false} BudgetEnd(base: set<nat>, logged: set<nat>, ino: Inode, ind: nat, off: nat, n: nat,
                                     rounds: nat, allocs: nat, spent: set<nat>)
    requires Budget(base, logged, ino, ind, off, n, rounds, allocs, spent)
    ensures logged <= base + (spent + Indirect(ino)) && (n <= 3 * BSIZE ==> |spent + Indirect(ino)| <= 9)
  {
    UnionCard(spent, Indirect(ino));
    if n <= 3 * BSIZE { SpentBound(off, n, rounds, allocs); }
  }

  // ---- the bound is reached ----

  /** Blocks stay with their slots, and a block that gained one was logged together with its free-map block. */
  ghost predicate Accounted(sb: Super, owner: map<nat, Slot>, logged: set<nat>, owner': map<nat, Slot>,
                            logged': set<nat>) {
    && logged <= logged' && (forall b | b in owner :: b in owner' && owner'[b] == owner[b])
    && forall b | b in owner' && b !in owner :: b in logged' && MapBlock(sb, b) in logged'
  }

  lemma {:induction false} AccountedRefl(sb: Super, owner: map<nat, Slot>, logged: set<nat>)
    ensures Accounted(sb, owner, logged, owner, logged)
  {
  }

  lemma {:induction false} AccountedGrows(sb: Super, o0: map<nat, Slot>, l0: set<nat>, o1: map<nat, Slot>, l1: set<nat>)
    requires Accounted(sb, o0, l0, o1, l1)
    ensures l0 <= l1
  {
  }

  lemma {:induction false} AccountedTrans(sb: Super, o0: map<nat, Slot>, l0: set<nat>, o1: map<nat, Slot>, l1: set<nat>,
                                          o2: map<nat, Slot>, l2: set<nat>)
    requires Accounted(sb, o0, l0, o1, l1) && Accounted(sb, o1, l1, o2, l2)
    ensures Accounted(sb, o0, l0, o2, l2)
  {
  }

  lemma {:induction false} AccountedMore(sb: Super, o0: map<nat, Slot>, l0: set<nat>, o1: map<nat, Slot>, l1: set<nat>,
                                         l2: set<nat>)
    requires Accounted(sb, o0, l0, o1, l1) && l1 <= l2
    ensures Accounted(sb, o0, l0, o1, l2)
  {
  }

  /** A write of at most three blocks' worth of bytes that spans four blocks of the file, of which the
      last three and the indirect block are missing, on a disk whose free blocks all have free-map
      blocks of their own. */
  ghost predicate Worst<T, B>(F: Format<T, B>, sb: Super, disk: seq<T>, inodes: seq<Inode>, i: nat, off: nat, n: nat)
    requires Shape(sb, disk, inodes) && i < sb.ninodes
  {
    && 0 < n <= 3 * BSIZE && (off + n - 1) / BSIZE == off / BSIZE + 3
    && off / BSIZE < NDIRECT <= off / BSIZE + 3 && (forall k | off / BSIZE < k <= NDIRECT :: inodes[i].addrs[k] == 0)
    && (forall x: nat, y: nat | x < y < sb.size && !Used(F, sb, disk, x) && !Used(F, sb, disk, y) ::
          MapBlock(sb, x) != MapBlock(sb, y))
  }

  /** A data block that nobody owned; it and its free-map block are logged. */
  ghost predicate NewBlock(sb: Super, owner: map<nat, Slot>, logged: set<nat>, b: nat) {
    b !in owner && sb.datastart <= b && b in logged && sb.bmapstart <= MapBlock(sb, b) < sb.datastart
    && MapBlock(sb, b) in logged
  }

  /** A slot that was empty and is not any more got such a block. */
  lemma {:induction false} NewlyOwned<T(!new), B(!new)>(F: Format<T, B>, sb: Super, d0: seq<T>, n0: seq<Inode>,
                                                        o0: map<nat, Slot>, l0: set<nat>, d1: seq<T>, n1: seq<Inode>,
                                                        o1: map<nat, Slot>, l1: set<nat>, s: Slot)
    requires Owned(F, sb, d0, n0, o0, 0, 0) && Owned(F, sb, d1, n1, o1, 0, 0) && Accounted(sb, o0, l0, o1, l1)
    requires IsSlot(sb, s) && Ptr(F, d0, n0, s) == 0 && Ptr(F, d1, n1, s) != 0
    ensures var p := Ptr(F, d1, n1, s);
        p in o1 && o1[p] == s && NewBlock(sb, o0, l1, p) && p < sb.size && !Used(F, sb, d0, p)
  {
  }

  lemma {:induction false} FourCard(a: nat, b: nat, c: nat, d: nat)
    requires a != b && a != c && a != d && b != c && b != d && c != d
    ensures |{a, b, c, d}| == 4
  {
  }

  /** An owned data block, four new ones, their four free-map blocks and an inode block are ten blocks. */
  lemma {:induction false} TenBlocks(sb: Super, owner: map<nat, Slot>, p: nat, a: nat, b: nat, c: nat, d: nat, y: nat,
                                     logged: set<nat>)
    requires p in owner && {p, y} <= logged && y < sb.bmapstart && sb.datastart <= p
    requires NewBlock(sb, owner, logged, a) && NewBlock(sb, owner, logged, b) && NewBlock(sb, owner, logged, c)
    requires NewBlock(sb, owner, logged, d)
    requires MapBlock(sb, a) != MapBlock(sb, b) && MapBlock(sb, a) != MapBlock(sb, c)
    requires MapBlock(sb, a) != MapBlock(sb, d)
    requires MapBlock(sb, b) != MapBlock(sb, c) && MapBlock(sb, b) != MapBlock(sb, d)
    requires MapBlock(sb, c) != MapBlock(sb, d)
    ensures |logged| >= RedoLog.MAXOPBLOCKS
  {
    var data, maps, rest := {a, b, c, d}, {MapBlock(sb, a), MapBlock(sb, b), MapBlock(sb, c), MapBlock(sb, d)}, {p, y};
    FourCard(a, b, c, d);
    FourCard(MapBlock(sb, a), MapBlock(sb, b), MapBlock(sb, c), MapBlock(sb, d));
    DisjointCard(data, maps, rest);
    SubsetCard(data + maps + rest, logged);
  }

  lemma {:induction false} DisjointCard(a: set<nat>, b: set<nat>, c: set<nat>)
    requires a !! b && a !! c && b !! c
    ensures |a + b + c| == |a| + |b| + |c|
  {
    assert (a + b) !! c;
  }

  /** What Worst says of block bn of the file, in the slots' terms. */
  lemma {:induction false} WorstSlot<T(!new), B(!new)>(F: Format<T, B>, sb: Super, d0: seq<T>, n0: seq<Inode>,
                                                       d1: seq<T>, n1: seq<Inode>, i: nat, off: nat, n: nat,
                                                       data: seq<B>, bn: nat)
    requires Shape(sb, d0, n0) && Shape(sb, d1, n1) && i < sb.ninodes && Worst(F, sb, d0, n0, i, off, n)
    requires FileOk(F, d1, n1[i], data) && off + n <= |data| && off / BSIZE < bn <= off / BSIZE + 3
    ensures IsSlot(sb, SlotOf(i, bn)) && Ptr(F, d0, n0, SlotOf(i, bn)) == 0 && Ptr(F, d1, n1, SlotOf(i, bn)) != 0
  {
    hide Used;
    assert bn * BSIZE < |data|;
    SlotPtr(F, d1, n1, i, bn);
  }

  /** Two different blocks that were free before such a write have different free-map blocks. */
  lemma {:induction false} WorstApart<T(!new), B(!new)>(F: Format<T, B>, sb: Super, disk: seq<T>, inodes: seq<Inode>,
                                                        i: nat, off: nat, n: nat, a: nat, b: nat)
    requires Shape(sb, disk, inodes) && i < sb.ninodes && Worst(F, sb, disk, inodes, i, off, n)
    requires a < sb.size && b < sb.size && a != b && !Used(F, sb, disk, a) && !Used(F, sb, disk, b)
    ensures MapBlock(sb, a) != MapBlock(sb, b)
  {
    hide Used;
    assert if a < b then MapBlock(sb, a) != MapBlock(sb, b) else MapBlock(sb, b) != MapBlock(sb, a);
  }

  lemma {:induction false} InodeBelow(sb: Super, i: nat)
    requires SuperOk(sb) && i < sb.ninodes
    ensures InodeBlock(sb, i) < sb.bmapstart
  {
  }

  /** The indirect block was missing and is there now. */
  lemma {:induction false} WorstIndirect<T(!new), B(!new)>(F: Format<T, B>, sb: Super, d0: seq<T>, n0: seq<Inode>,
                                                           d1: seq<T>, n1: seq<Inode>, i: nat, off: nat, n: nat)
    requires Shape(sb, d0, n0) && Shape(sb, d1, n1) && i < sb.ninodes && Worst(F, sb, d0, n0, i, off, n)
    requires Ptr(F, d1, n1, SlotOf(i, off / BSIZE + 3)) != 0
    ensures Ptr(F, d0, n0, Top(i, NDIRECT)) == 0 && Ptr(F, d1, n1, Top(i, NDIRECT)) != 0
  {
    hide Used;
  }

  /** The first block such a write goes to is there already. */
  lemma {:induction false} WorstFirst<T(!new), B(!new)>(F: Format<T, B>, sb: Super, disk: seq<T>, inodes: seq<Inode>,
                                                        owner: map<nat, Slot>, i: nat, off: nat, n: nat, data: seq<B>)
    requires Owned(F, sb, disk, inodes, owner, 0, 0) && i < sb.ninodes && Worst(F, sb, disk, inodes, i, off, n)
    requires FileOk(F, disk, inodes[i], data) && off <= |data|
    ensures 0 < n && off / BSIZE < NDIRECT
    ensures var p := FilePtr(F, disk, inodes[i], off / BSIZE);
        p == inodes[i].addrs[off / BSIZE] != 0 && p in owner && sb.datastart <= p
  {
    hide Used, Owned;
    assert off / BSIZE * BSIZE < |data|;
    FilePtrOwned(F, sb, disk, inodes, owner, i, off / BSIZE);
  }

  /** Such a write, done in full, logs as many blocks as filewrite allows for. */
  lemma {:induction false} BudgetReached<T(!new), B(!new)>(F: Format<T, B>, sb: Super, d0: seq<T>, n0: seq<Inode>,
                                                           o0: map<nat, Slot>, l0: set<nat>, d1: seq<T>, n1: seq<Inode>,
                                                           o1: map<nat, Slot>, l1: set<nat>, i: nat, off: nat, n: nat,
                                                           data: seq<B>)
    requires Shape(sb, d0, n0) && Shape(sb, d1, n1) && i < sb.ninodes && Worst(F, sb, d0, n0, i, off, n)
    requires Owned(F, sb, d0, n0, o0, 0, 0) && Owned(F, sb, d1, n1, o1, 0, 0) && Accounted(sb, o0, l0, o1, l1)
    requires FileOk(F, d1, n1[i], data) && off + n <= |data|
    requires var p := n0[i].addrs[off / BSIZE]; p in o0 && p in l1 && sb.datastart <= p && InodeBlock(sb, i) in l1
    ensures |l1| >= RedoLog.MAXOPBLOCKS
  {
    hide Used, FileOk, Accounted, Owned, NewBlock, Ptr;
    var bn := off / BSIZE;
    var s, t, u, v := SlotOf(i, bn + 1), SlotOf(i, bn + 2), SlotOf(i, bn + 3), Top(i, NDIRECT);
    WorstSlot(F, sb, d0, n0, d1, n1, i, off, n, data, bn + 1);
    WorstSlot(F, sb, d0, n0, d1, n1, i, off, n, data, bn + 2);
    WorstSlot(F, sb, d0, n0, d1, n1, i, off, n, data, bn + 3);
    NewlyOwned(F, sb, d0, n0, o0, l0, d1, n1, o1, l1, s);
    NewlyOwned(F, sb, d0, n0, o0, l0, d1, n1, o1, l1, t);
    NewlyOwned(F, sb, d0, n0, o0, l0, d1, n1, o1, l1, u);
    WorstIndirect(F, sb, d0, n0, d1, n1, i, off, n);
    NewlyOwned(F, sb, d0, n0, o0, l0, d1, n1, o1, l1, v);
    var a, b, c, d := Ptr(F, d1, n1, s), Ptr(F, d1, n1, t), Ptr(F, d1, n1, u), Ptr(F, d1, n1, v);
    WorstApart(F, sb, d0, n0, i, off, n, a, b);
    WorstApart(F, sb, d0, n0, i, off, n, a, c);
    WorstApart(F, sb, d0, n0, i, off, n, a, d);
    WorstApart(F, sb, d0, n0, i, off, n, b, c);
    WorstApart(F, sb, d0, n0, i, off, n, b, d);
    WorstApart(F, sb, d0, n0, i, off, n, c, d);
    InodeBelow(sb, i);
    TenBlocks(sb, o0, n0[i].addrs[bn], a, b, c, d, InodeBlock(sb, i), l1);
  }

  /** What a write has logged so far: from `owner` and `base` on, `ind` the indirect block and `p` the
      first block of the write at the start. */
  datatype Tally = Tally(owner: map<nat, Slot>, base: set<nat>, ind: nat, p: nat, rounds: nat, allocs: nat,
                         spent: set<nat>)

  ghost predicate Tallied(sb: Super, t: Tally, owner: map<nat, Slot>, logged: set<nat>, ino: Inode, off: nat, n: nat,
                          tot: nat) {
    && Budget(t.base, logged, ino, t.ind, off, n, t.rounds, t.allocs, t.spent)
    && Accounted(sb, t.owner, t.base, owner, logged)
    && (tot > 0 && t.p != 0 ==> t.p in logged) && (t.rounds > 0 || tot == 0)
  }

  lemma {:induction false} TallyStart(sb: Super, t: Tally, ino: Inode, off: nat, n: nat)
    requires |ino.addrs| == NDIRECT + 1 && t.ind == ino.addrs[NDIRECT] && t.rounds == t.allocs == 0 && t.spent == {}
    ensures Tallied(sb, t, t.owner, t.base, ino, off, n, 0) && AtRound(off, 0, t.rounds)
  {
    hide Budget, Accounted;
    BudgetStart(t.base, ino, off, n);
    AccountedRefl(sb, t.owner, t.base);
  }

  /** One round more; `done` if it wrote its bytes. */
  lemma {:induction false} TallyStep(sb: Super, t: Tally, o0: map<nat, Slot>, l0: set<nat>, ino: Inode,
                                     owner: map<nat, Slot>, logged: set<nat>, ino': Inode, off: nat, n: nat, tot: nat,
                                     size: nat, maps: set<nat>, addr: nat, done: bool) returns (t': Tally)
    requires Tallied(sb, t, o0, l0, ino, off, n, tot) && AtRound(off, tot, t.rounds) && tot < n && off + tot <= size
    requires Accounted(sb, o0, l0, owner, logged)
    requires |ino.addrs| == |ino'.addrs| == NDIRECT + 1 && logged <= l0 + maps + {addr} + Indirect(ino')
    requires |maps| <= (if (off + tot) / BSIZE * BSIZE < size then 0 else 1)
                       + if ino.addrs[NDIRECT] == ino'.addrs[NDIRECT] then 0 else 1
    requires ino.addrs[NDIRECT] != 0 ==> ino'.addrs[NDIRECT] == ino.addrs[NDIRECT]
    requires done && tot == 0 && t.p != 0 ==> t.p in logged
    ensures Tallied(sb, t', owner, logged, ino', off, n, if done then tot + Round(off, n, tot) else tot)
    ensures t'.owner == t.owner && t'.base == t.base && t'.p == t.p
    ensures tot + Round(off, n, tot) < n ==> AtRound(off, tot + Round(off, n, tot), t'.rounds)
  {
    hide Budget, Accounted, AtRound, Round;
    var a := if (off + tot) / BSIZE * BSIZE < size then 0 else 1;
    BudgetStep(t.base, l0, ino, t.ind, off, n, tot, size, t.rounds, t.allocs, t.spent, logged, ino', maps, addr, a);
    AccountedGrows(sb, o0, l0, owner, logged);
    AccountedTrans(sb, t.owner, t.base, o0, l0, owner, logged);
    t' := t.(rounds := t.rounds + 1, allocs := t.allocs + a, spent := t.spent + maps + {addr});
  }

  lemma {:induction false} TallyEnd(sb: Super, t: Tally, owner: map<nat, Slot>, logged: set<nat>, ino: Inode, off: nat,
                                    n: nat, tot: nat)
    requires Tallied(sb, t, owner, logged, ino, off, n, tot)
    ensures |ino.addrs| == NDIRECT + 1 && logged <= t.base + (t.spent + Indirect(ino))
    ensures (n <= 3 * BSIZE ==> |t.spent + Indirect(ino)| < RedoLog.MAXOPBLOCKS)
    ensures Accounted(sb, t.owner, t.base, owner, logged) && (tot > 0 && t.p != 0 ==> t.p in logged)
  {
    hide Accounted;
    BudgetEnd(t.base, logged, ino, t.ind, off, n, t.rounds, t.allocs, t.spent);
  }

  // ---- transactions ----

  /** The blocks written. */
  ghost function Bnos<T(!new)>(ws: seq<RedoLog.Write<T>>): set<nat> { set w | w in ws :: w.bno }

  /** The log_writes `trace` of the current transaction, which started from the disk `base`: they are
      all outside boot block, superblock and log, and nothing else changed. */
  ghost predicate Traced<T(!new)>(sb: Super, base: seq<T>, trace: seq<RedoLog.Write<T>>, disk: seq<T>,
                                  logged: set<nat>) {
    && disk == RedoLog.Apply(base, trace) && logged == Bnos(trace)
    && forall w | w in trace :: sb.inodestart <= w.bno < sb.size
  }

  lemma {:induction false} TracedStep<T(!new)>(sb: Super, base: seq<T>, trace: seq<RedoLog.Write<T>>, disk: seq<T>,
                                               logged: set<nat>, b: nat, x: T)
    requires Traced(sb, base, trace, disk, logged) && sb.inodestart <= b < sb.size == |disk|
    ensures Traced(sb, base, trace + [RedoLog.Write(b, x)], disk[b := x], logged + {b})
  {
    var ws := trace + [RedoLog.Write(b, x)];
    assert ws[..|trace|] == trace && ws[|trace|] == RedoLog.Write(b, x);
    assert forall w | w in ws :: w in trace || w == RedoLog.Write(b, x);
    assert forall w | w in trace :: w in ws;
    assert ws[|trace|] in ws;
  }

  lemma {:induction false} TracedNone<T(!new)>(sb: Super, disk: seq<T>)
    ensures Traced(sb, disk, [], disk, {})
  {
  }

  lemma {:induction false} TracedFacts<T(!new)>(sb: Super, base: seq<T>, trace: seq<RedoLog.Write<T>>, disk: seq<T>,
                                                logged: set<nat>)
    requires Traced(sb, base, trace, disk, logged)
    ensures disk == RedoLog.Apply(base, trace) && logged == Bnos(trace)
    ensures forall w | w in trace :: sb.inodestart <= w.bno < sb.size
  {
  }

  /** Before each of its log_writes the transaction has logged fewer than MAXOPBLOCKS different blocks. */
  ghost predicate Thrifty<T(!new)>(ws: seq<RedoLog.Write<T>>) {
    forall k | 0 <= k < |ws| :: |Bnos(ws[..k])| < RedoLog.MAXOPBLOCKS
  }

  /** Nine blocks, and then one more write. */
  lemma {:induction false} ThriftyLast<T(!new)>(ws: seq<RedoLog.Write<T>>, few: set<nat>, w: RedoLog.Write<T>)
    requires Bnos(ws) <= few && |few| < RedoLog.MAXOPBLOCKS
    ensures Thrifty(ws + [w])
  {
    var all := ws + [w];
    forall k | 0 <= k < |all| ensures |Bnos(all[..k])| < RedoLog.MAXOPBLOCKS {
      assert all[..k] == ws[..k];
      assert Bnos(ws[..k]) <= Bnos(ws);
      SubsetCard(Bnos(ws[..k]), few);
    }
  }

  /** What a file system on disk must be, with the inodes and owners it determines. */
  ghost predicate ValidAt<T(!new), B(!new)>(F: Format<T, B>, sb: Super, disk: seq<T>, inodes: seq<Inode>,
                                            owner: map<nat, Slot>, files: seq<seq<B>>) {
    && Owned(F, sb, disk, inodes, owner, 0, 0) && Others(F, sb, disk, inodes, files, sb.ninodes)
    && forall m: nat | m < sb.ninodes :: MetaOk(inodes[m])
  }

  /** The disk holds a consistent file system with these file contents. */
  ghost predicate Image<T(!new), B(!new)>(F: Format<T, B>, sb: Super, disk: seq<T>, files: seq<seq<B>>) {
    exists inodes, owner :: ValidAt(F, sb, disk, inodes, owner, files)
  }

  /** The log_writes ws take the disk from one consistent file system to another. */
  ghost predicate Transaction<T(!new), B(!new)>(F: Format<T, B>, sb: Super, disk: seq<T>, files: seq<seq<B>>,
                                                ws: seq<RedoLog.Write<T>>, files': seq<seq<B>>) {
    && Image(F, sb, disk, files) && Image(F, sb, RedoLog.Apply(disk, ws), files')
    && forall w | w in ws :: sb.inodestart <= w.bno < sb.size
  }

  lemma {:induction false} TransactionDone<T(!new), B(!new)>(F: Format<T, B>, sb: Super, d0: seq<T>, n0: seq<Inode>,
                                                             o0: map<nat, Slot>, f0: seq<seq<B>>,
                                                             ws: seq<RedoLog.Write<T>>, d1: seq<T>, n1: seq<Inode>,
                                                             o1: map<nat, Slot>, f1: seq<seq<B>>, logged: set<nat>)
    requires ValidAt(F, sb, d0, n0, o0, f0) && ValidAt(F, sb, d1, n1, o1, f1) && Traced(sb, d0, ws, d1, logged)
    ensures Transaction(F, sb, d0, f0, ws, f1)
  {
    hide ValidAt;
    TracedFacts(sb, d0, ws, d1, logged);
  }

  lemma {:induction false} NoneTraced<T(!new)>(sb: Super, base: seq<T>, disk: seq<T>, logged: set<nat>)
    requires Traced(sb, base, [], disk, logged)
    ensures base == disk && logged == {}
  {
  }

  lemma {:induction false} NoWrites<T(!new), B(!new)>(F: Format<T, B>, sb: Super, base: seq<T>, disk: seq<T>,
                                                      inodes: seq<Inode>, owner: map<nat, Slot>, files: seq<seq<B>>,
                                                      logged: set<nat>)
    requires ValidAt(F, sb, disk, inodes, owner, files) && Traced(sb, base, [], disk, logged)
    ensures Transaction(F, sb, disk, files, [], files) && Thrifty<T>([])
  {
    hide ValidAt;
  }

  /** One transaction: its log_writes, and the files once it is done. */
  datatype Txn<T, B> = Txn(ws: seq<RedoLog.Write<T>>, files: seq<seq<B>>)

  function DiskAfter<T, B>(disk: seq<T>, ops: seq<Txn<T, B>>): seq<T> {
    if ops == [] then disk else RedoLog.Apply(DiskAfter(disk, ops[..|ops| - 1]), ops[|ops| - 1].ws)
  }

  function FilesAfter<T, B>(files: seq<seq<B>>, ops: seq<Txn<T, B>>): seq<seq<B>> {
    if ops == [] then files else ops[|ops| - 1].files
  }

  // ---- the chunks of filewrite ----

  const CHUNK := 3 * BSIZE        // ((MAXOPBLOCKS - 1 - 1 - 2) / 2) * BSIZE

  /** How many transactions write n bytes. */
  function Chunks(n: nat): nat { (n + CHUNK - 1) / CHUNK }

  lemma {:induction false} ChunksMore(k: nat, m: nat)
    requires k % CHUNK == 0 && m <= CHUNK
    ensures Chunks(k) * CHUNK == k && Chunks(k + m) == Chunks(k) + if m == 0 then 0 else 1
  {
  }

  /** Every transaction but the last adds one whole chunk of src to file i. */
  ghost predicate Chunked<T, B>(files: seq<seq<B>>, i: nat, off: nat, src: seq<B>, ops: seq<Txn<T, B>>) {
    && i < |files| && off <= |files[i]|
    && forall k: nat | k < |ops| - 1 ::
         (k + 1) * CHUNK <= |src| && ops[k].files == files[i := Overwrite(files[i], off, src[..(k + 1) * CHUNK])]
  }

  lemma {:induction false} WholeFiles<T(!new), B(!new)>(F: Format<T, B>, sb: Super, disk: seq<T>, inodes: seq<Inode>,
                                                        owner: map<nat, Slot>, files: seq<seq<B>>)
    requires ValidAt(F, sb, disk, inodes, owner, files)
    ensures SuperOk(sb) && |disk| == sb.size
    ensures |files| == sb.ninodes
  {
  }

  /** One chunk more: writei at off + k was given n1 bytes and wrote r of them. */
  lemma {:induction false} ChunkDone<T(!new), B(!new)>(files: seq<seq<B>>, f0: seq<seq<B>>, i: nat, off: nat,
                                                       src: seq<B>, k: nat, n1: nat, r: int, ops: seq<Txn<T, B>>,
                                                       op: Txn<T, B>)
    requires i < |files| && off <= |files[i]| && k + n1 <= |src| && r <= n1 && |ops| * CHUNK == k
    requires f0 == files[i := Overwrite(files[i], off, src[..k])] && Chunked(files, i, off, src, ops)
    requires f0 == FilesAfter(files, ops)
    requires r < 0 ==> op.files == f0
    requires 0 <= r ==> off + k <= |f0[i]| && op.files == f0[i := Overwrite(f0[i], off + k, src[k..k + n1][..r])]
    ensures Chunked(files, i, off, src, ops + [op])
    ensures op.files == files[i := Overwrite(files[i], off, src[..if r < 0 then k else k + r])]
  {
    hide Overwrite;
    if 0 <= r {
      assert src[k..k + n1][..r] == src[k..k + r];
      OverwriteMore(files[i], off, src, k, r);
    }
    forall m: nat | m < |ops|
      ensures (m + 1) * CHUNK <= |src| && (ops + [op])[m].files ==
          files[i := Overwrite(files[i], off, src[..(m + 1) * CHUNK])]
    {
    }
  }

  // ---- one inode among all ----

  lemma {:induction false} OthersSplit<T(!new), B(!new)>(F: Format<T, B>, sb: Super, disk: seq<T>, inodes: seq<Inode>,
                                                         files: seq<seq<B>>, i: nat)
    requires Others(F, sb, disk, inodes, files, sb.ninodes) && i < sb.ninodes
    ensures Others(F, sb, disk, inodes, files, i) && FileOk(F, disk, inodes[i], files[i])
    ensures Synced(F, sb, disk, inodes, i)
  {
  }

  lemma {:induction false} OthersJoin<T(!new), B(!new)>(F: Format<T, B>, sb: Super, disk: seq<T>, inodes: seq<Inode>,
                                                        files: seq<seq<B>>, i: nat, data: seq<B>)
    requires Others(F, sb, disk, inodes, files, i) && i < sb.ninodes && FileOk(F, disk, inodes[i], data)
    requires Synced(F, sb, disk, inodes, i)
    ensures Others(F, sb, disk, inodes, files[i := data], sb.ninodes)
  {
  }

  /** The size of an inode plays no part in who owns what. */
  lemma {:induction false} SizeSet<T(!new), B(!new)>(F: Format<T, B>, sb: Super, disk: seq<T>, inodes: seq<Inode>,
                                                     owner: map<nat, Slot>, files: seq<seq<B>>, i: nat,
                                                     inodes': seq<Inode>)
    requires Owned(F, sb, disk, inodes, owner, 0, 0) && Others(F, sb, disk, inodes, files, i) && i < sb.ninodes
    requires |inodes'| == |inodes| && inodes'[i].addrs == inodes[i].addrs
    requires forall m | 0 <= m < |inodes| && m != i :: inodes'[m] == inodes[m]
    ensures Owned(F, sb, disk, inodes', owner, 0, 0) && Others(F, sb, disk, inodes', files, i)
  {
    hide Used, FileOk;
    forall s | IsSlot(sb, s) ensures Ptr(F, disk, inodes', s) == Ptr(F, disk, inodes, s) { }
    forall m: nat | m < sb.ninodes && m != i
      ensures Synced(F, sb, disk, inodes', m)
    {
      assert Synced(F, sb, disk, inodes, m);
    }
    forall m: nat | m < sb.ninodes && m != i
      ensures FileOk(F, disk, inodes'[m], files[m])
    {
      assert FileOk(F, disk, inodes[m], files[m]);
    }
  }

  lemma {:induction false} SliceJoin<B>(s: seq<B>, a: nat, b: nat, c: nat)
    requires a <= b <= c <= |s|
    ensures s[a..b] + s[b..c] == s[a..c]
  {
  }

  /** Part of a block of the file is the same part of its contents. */
  lemma {:induction false} FileSlice<T(!new), B(!new)>(F: Format<T, B>, disk: seq<T>, ino: Inode, data: seq<B>,
                                                       off: nat, m: nat)
    requires FileOk(F, disk, ino, data) && off + m <= |data| && off % BSIZE + m <= BSIZE && 0 < m
    ensures var p := FilePtr(F, disk, ino, off / BSIZE);
      0 < p < |disk| && |F.bytes(disk[p])| == BSIZE
      && F.bytes(disk[p])[off % BSIZE..off % BSIZE + m] == data[off..off + m]
  {
    var bn, o := off / BSIZE, off % BSIZE;
    assert bn * BSIZE + o == off;
    assert |Chunk(F, disk, ino, bn)| == BSIZE;
    assert forall x | o <= x < o + m :: Chunk(F, disk, ino, bn)[x] == data[bn * BSIZE + x];
    assert Chunk(F, disk, ino, bn)[o..o + m] == data[off..off + m];
  }

  // ---- itrunc ----

  /** Freeing blocks of inode i leaves the other files alone. */
  lemma {:induction false} OthersMarked<T(!new), B(!new)>(F: Format<T, B>, sb: Super, disk: seq<T>, inodes: seq<Inode>,
                                                          owner: map<nat, Slot>, n: nat, files: seq<seq<B>>, i: nat,
                                                          b: nat, disk': seq<T>, inodes': seq<Inode>)
    requires Law(F) && Owned(F, sb, disk, inodes, owner, i, n) && Others(F, sb, disk, inodes, files, i) && b < sb.size
    requires i < sb.ninodes
    requires disk' == Marked(F, sb, disk, b, false) && Shape(sb, disk', inodes')
    requires forall m | 0 <= m < |inodes| && m != i :: inodes'[m] == inodes[m]
    ensures Others(F, sb, disk', inodes', files, i)
  {
    hide Law, Used, Marked;
    UnmarkKeeps(F, sb, disk, inodes, owner, i, n, b);
    forall m: nat | m < sb.ninodes && m != i ensures FileOk(F, disk', inodes'[m], files[m]) {
      FileMarked(F, sb, disk, inodes, owner, i, n, m, files[m], disk');
    }
    forall m: nat | m < sb.ninodes && m != i
      ensures Synced(F, sb, disk', inodes', m)
    {
      SyncedKept(F, sb, disk, inodes, disk', inodes', m);
    }
  }

  lemma {:induction false} FileMarked<T(!new), B(!new)>(F: Format<T, B>, sb: Super, disk: seq<T>, inodes: seq<Inode>,
                                                        owner: map<nat, Slot>, i: nat, n: nat, m: nat, data: seq<B>,
                                                        disk': seq<T>)
    requires Owned(F, sb, disk, inodes, owner, i, n) && m < sb.ninodes && m != i && FileOk(F, disk, inodes[m], data)
    requires |disk'| == |disk|
    requires forall s | IsSlot(sb, s) :: Ptr(F, disk', inodes, s) == Ptr(F, disk, inodes, s)
    requires forall y | 0 <= y < sb.size && (y < sb.bmapstart || sb.datastart <= y) :: disk'[y] == disk[y]
    ensures FileOk(F, disk', inodes[m], data)
  {
    hide Used;
    forall bn: nat | bn * BSIZE < |data|
      ensures FilePtr(F, disk', inodes[m], bn) == FilePtr(F, disk, inodes[m], bn)
      ensures disk'[FilePtr(F, disk, inodes[m], bn)] == disk[FilePtr(F, disk, inodes[m], bn)]
    {
      SlotPtr(F, disk, inodes, m, bn);
      SlotPtr(F, disk', inodes, m, bn);
      assert IsSlot(sb, SlotOf(m, bn)) && !Exempt(SlotOf(m, bn), i, n);
      assert Ptr(F, disk', inodes, SlotOf(m, bn)) == Ptr(F, disk, inodes, SlotOf(m, bn));
      assert Ptr(F, disk, inodes, SlotOf(m, bn)) in owner;
    }
    FileKept(F, disk, inodes[m], disk', inodes[m], data);
  }

  lemma {:induction false} OwnedAny<T(!new), B(!new)>(F: Format<T, B>, sb: Super, disk: seq<T>, inodes: seq<Inode>,
                                                      owner: map<nat, Slot>, i: nat)
    requires Owned(F, sb, disk, inodes, owner, 0, 0)
    ensures Owned(F, sb, disk, inodes, owner, i, 0)
  {
  }

  /** What itrunc has given up so far: only blocks of inode i. */
  ghost predicate Shrunk(owner: map<nat, Slot>, owner': map<nat, Slot>, i: nat) {
    && (forall b | b in owner' :: b in owner && owner'[b] == owner[b])
    && (forall b | b in owner && owner[b].i != i :: b in owner')
  }

  /** With no address left, inode i owns nothing. */
  lemma {:induction false} NothingOwned<T(!new), B(!new)>(F: Format<T, B>, sb: Super, disk: seq<T>, inodes: seq<Inode>,
                                                          owner: map<nat, Slot>, i: nat)
    requires Owned(F, sb, disk, inodes, owner, 0, 0) && i < sb.ninodes
    requires forall k | 0 <= k <= NDIRECT :: inodes[i].addrs[k] == 0
    ensures forall b | b in owner :: owner[b].i != i
    ensures FileOk(F, disk, inodes[i].(size := 0), [])
  {
    forall b | b in owner ensures owner[b].i != i { assert Ptr(F, disk, inodes, owner[b]) == b; }
  }

  /** One round of itrunc's loop over the direct blocks. */
  lemma {:induction false} TruncTop<T(!new), B(!new)>(F: Format<T, B>, sb: Super, disk: seq<T>, inodes: seq<Inode>,
                                                      owner: map<nat, Slot>, i: nat, k: nat, files: seq<seq<B>>,
                                                      inodes': seq<Inode>, b: nat)
    requires Law(F) && Owned(F, sb, disk, inodes, owner, 0, 0) && IsSlot(sb, Top(i, k)) && k < NDIRECT
    requires inodes[i].addrs[k] == b != 0
    requires Others(F, sb, disk, inodes, files, i)
    requires inodes' == inodes[i := inodes[i].(addrs := inodes[i].addrs[k := 0])]
    ensures b in owner && owner[b].i == i && b < sb.size && Used(F, sb, disk, b)
    ensures var disk' := Marked(F, sb, disk, b, false);
      Owned(F, sb, disk', inodes', owner - {b}, 0, 0) && Others(F, sb, disk', inodes', files, i)
  {
    hide Law, Others, Used, Marked;
    ShrinkTop(F, sb, disk, inodes, owner, i, k, inodes');
    OwnedAny(F, sb, disk, inodes, owner, i);
    OthersMarked(F, sb, disk, inodes, owner, 0, files, i, b, Marked(F, sb, disk, b, false), inodes');
  }

  lemma {:induction false} ShrunkRefl(owner: map<nat, Slot>, i: nat)
    ensures Shrunk(owner, owner, i)
  {
  }

  lemma {:induction false} ShrunkStep(owner: map<nat, Slot>, owner': map<nat, Slot>, i: nat, b: nat)
    requires Shrunk(owner, owner', i) && b in owner' && owner'[b].i == i
    ensures Shrunk(owner, owner' - {b}, i)
  {
  }

  /** One round of itrunc's loop over the indirect block, when it frees a block. */
  lemma {:induction false} TruncLeaf<T(!new), B(!new)>(F: Format<T, B>, sb: Super, disk: seq<T>, inodes: seq<Inode>,
                                                       owner: map<nat, Slot>, i: nat, n: nat, files: seq<seq<B>>,
                                                       b: nat)
    requires Law(F) && Owned(F, sb, disk, inodes, owner, i, n) && IsSlot(sb, Leaf(i, n))
    requires b == Ptr(F, disk, inodes, Leaf(i, n)) && b != 0
    requires Others(F, sb, disk, inodes, files, i) && forall x | x in owner :: !Exempt(owner[x], i, n)
    ensures b in owner && owner[b].i == i && b < sb.size && Used(F, sb, disk, b)
    ensures var disk' := Marked(F, sb, disk, b, false);
      && Owned(F, sb, disk', inodes, owner - {b}, i, n + 1) && Others(F, sb, disk', inodes, files, i)
      && forall x | x in owner - {b} :: !Exempt(owner[x], i, n + 1)
    ensures forall y | sb.datastart <= y < sb.size :: Marked(F, sb, disk, b, false)[y] == disk[y]
  {
    hide Law, Others, Used, Marked;
    ShrinkLeaf(F, sb, disk, inodes, owner, i, n);
    OthersMarked(F, sb, disk, inodes, owner, n, files, i, b, Marked(F, sb, disk, b, false), inodes);
    UnmarkKeeps(F, sb, disk, inodes, owner, i, n, b);
  }

  lemma {:induction false} TruncLeafNone<T(!new), B(!new)>(F: Format<T, B>, sb: Super, disk: seq<T>, inodes: seq<Inode>,
                                                           owner: map<nat, Slot>, i: nat, n: nat)
    requires Law(F) && Owned(F, sb, disk, inodes, owner, i, n) && IsSlot(sb, Leaf(i, n))
    requires Ptr(F, disk, inodes, Leaf(i, n)) == 0
    requires forall x | x in owner :: !Exempt(owner[x], i, n)
    ensures Owned(F, sb, disk, inodes, owner, i, n + 1) && forall x | x in owner :: !Exempt(owner[x], i, n + 1)
  {
    hide Law, Used;
    ShrinkLeaf(F, sb, disk, inodes, owner, i, n);
  }

  /** The end of itrunc's work on the indirect block: it is freed itself. */
  lemma {:induction false} TruncIndirectEnd<T(!new), B(!new)>(F: Format<T, B>, sb: Super, disk: seq<T>,
                                                              inodes: seq<Inode>, owner: map<nat, Slot>, i: nat,
                                                              files: seq<seq<B>>, inodes': seq<Inode>, b: nat)
    requires Law(F) && Owned(F, sb, disk, inodes, owner, i, NINDIRECT) && i < sb.ninodes
    requires inodes[i].addrs[NDIRECT] == b != 0
    requires Others(F, sb, disk, inodes, files, i)
    requires inodes' == inodes[i := inodes[i].(addrs := inodes[i].addrs[NDIRECT := 0])]
    requires forall x | x in owner :: !Exempt(owner[x], i, NINDIRECT)
    ensures b in owner && owner[b].i == i && b < sb.size && Used(F, sb, disk, b)
    ensures var disk' := Marked(F, sb, disk, b, false);
      Owned(F, sb, disk', inodes', owner - {b}, 0, 0) && Others(F, sb, disk', inodes', files, i)
  {
    hide Law, Others, Used, Marked;
    ShrinkIndirect(F, sb, disk, inodes, owner, i, inodes');
    OthersMarked(F, sb, disk, inodes, owner, NINDIRECT, files, i, b, Marked(F, sb, disk, b, false), inodes');
  }

  /** What the loop over the indirect block keeps, with n words done. */
  ghost predicate Freeing<T(!new), B(!new)>(F: Format<T, B>, sb: Super, disk: seq<T>, inodes: seq<Inode>,
                                            owner: map<nat, Slot>, files: seq<seq<B>>, i: nat, n: nat, bp: T) {
    && Law(F) && Owned(F, sb, disk, inodes, owner, i, n) && Others(F, sb, disk, inodes, files, i) && i < sb.ninodes
    && (forall x | x in owner :: !Exempt(owner[x], i, n))
    && sb.datastart <= inodes[i].addrs[NDIRECT] < sb.size && disk[inodes[i].addrs[NDIRECT]] == bp
  }

  lemma {:induction false} FreeingStart<T(!new), B(!new)>(F: Format<T, B>, sb: Super, disk: seq<T>, inodes: seq<Inode>,
                                                          owner: map<nat, Slot>, files: seq<seq<B>>, i: nat)
    requires Law(F) && Owned(F, sb, disk, inodes, owner, 0, 0) && Others(F, sb, disk, inodes, files, i)
    requires i < sb.ninodes && inodes[i].addrs[NDIRECT] != 0
    ensures inodes[i].addrs[NDIRECT] < |disk|
    ensures Freeing(F, sb, disk, inodes, owner, files, i, 0, disk[inodes[i].addrs[NDIRECT]])
  {
    hide Law, Others;
    OwnedFacts(F, sb, disk, inodes, owner, i);
    OwnedAny(F, sb, disk, inodes, owner, i);
  }

  lemma {:induction false} FreeingStep<T(!new), B(!new)>(F: Format<T, B>, sb: Super, disk: seq<T>, inodes: seq<Inode>,
                                                         owner: map<nat, Slot>, files: seq<seq<B>>, i: nat, n: nat,
                                                         bp: T)
    requires Freeing(F, sb, disk, inodes, owner, files, i, n, bp) && n < NINDIRECT
    ensures F.word(bp, n) == 0 ==> Freeing(F, sb, disk, inodes, owner, files, i, n + 1, bp)
    ensures F.word(bp, n) != 0 ==>
      var b := F.word(bp, n);
      && SuperOk(sb) && |disk| == sb.size && b in owner && owner[b].i == i && b < sb.size && Used(F, sb, disk, b)
      && Freeing(F, sb, Marked(F, sb, disk, b, false), inodes, owner - {b}, files, i, n + 1, bp)
  {
    hide Law, Others, Used, Marked;
    assert Ptr(F, disk, inodes, Leaf(i, n)) == F.word(bp, n);
    if F.word(bp, n) == 0 {
      TruncLeafNone(F, sb, disk, inodes, owner, i, n);
    } else {
      TruncLeaf(F, sb, disk, inodes, owner, i, n, files, F.word(bp, n));
    }
  }

  lemma {:induction false} FreeingEnd<T(!new), B(!new)>(F: Format<T, B>, sb: Super, disk: seq<T>, inodes: seq<Inode>,
                                                        owner: map<nat, Slot>, files: seq<seq<B>>, i: nat,
                                                        inodes': seq<Inode>, b: nat, bp: T)
    requires Freeing(F, sb, disk, inodes, owner, files, i, NINDIRECT, bp) && b == inodes[i].addrs[NDIRECT]
    requires inodes' == inodes[i := inodes[i].(addrs := inodes[i].addrs[NDIRECT := 0])]
    ensures SuperOk(sb) && |disk| == sb.size && b in owner && owner[b].i == i && b < sb.size && Used(F, sb, disk, b)
    ensures var disk' := Marked(F, sb, disk, b, false);
      Owned(F, sb, disk', inodes', owner - {b}, 0, 0) && Others(F, sb, disk', inodes', files, i)
  {
    hide Law, Others, Used, Marked;
    TruncIndirectEnd(F, sb, disk, inodes, owner, i, files, inodes', b);
  }
}
